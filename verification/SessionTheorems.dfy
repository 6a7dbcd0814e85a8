/** What one update session does to application flash. */
module SessionTheorems {
  import opened Words
  import opened Crc
  import opened Framing
  import opened Journal
  import opened Package
  import opened Device

  /** What the device knows of an active session since its READY, whatever was programmed: the header
      was accepted, and the write position is word-aligned and within the image. */
  ghost predicate Bounded(s: Session) {
    s.active ==>
      && IsValidPackageHeader(s.header)
      && s.bytesWritten % 4 == 0
      && s.bytesWritten <= s.header.imageSize
  }

  /** Programming `data` leaves exactly `data`: it asks for no bit that is already cleared. */
  ghost predicate Programmable(flash: seq<u8>, offset: nat, data: seq<u8>) {
    && offset + |data| <= |flash|
    && forall i | 0 <= i < |data| :: And(flash[offset + i], data[i]) == data[i]
  }

  lemma ProgrammedIsData(flash: seq<u8>, offset: nat, data: seq<u8>)
    requires offset + |data| <= |flash|
    ensures Programmed(flash, offset, data)[..offset] == flash[..offset]
    ensures Programmed(flash, offset, data)[offset + |data|..] == flash[offset + |data|..]
    ensures Programmed(flash, offset, data)[offset..offset + |data|] == data <==> Programmable(flash, offset, data)
  {
    hide And;
    var r := Programmed(flash, offset, data);
    forall i | 0 <= i < |data|
      ensures r[offset + i] == And(flash[offset + i], data[i])
    {
    }
    if r[offset..offset + |data|] == data {
      forall i | 0 <= i < |data|
        ensures And(flash[offset + i], data[i]) == data[i]
      {
        assert r[offset..offset + |data|][i] == data[i];
      }
    }
  }

  lemma ErasedIsProgrammable(b: u8)
    ensures And(0xFF, b) == b
  {
    Pow2Of8();
    AndOnes(8, b);
  }

  /** READY: nothing written yet and the whole slot erased, ready for any data. */
  lemma ReadyIsClean(j: Pages, flash: seq<u8>, s: Session, f: Frame, fault: StepFault)
    requires Sized(j, flash) && FaultShape(fault) && |f.payload| == HEADER_SIZE + 4
    requires HandleBegin(j, flash, s, f, fault).next.Continue?
    requires HandleBegin(j, flash, s, f, fault).next.reply.kind == READY
    ensures var h := HandleBegin(j, flash, s, f, fault);
      && h.next.session.active && Bounded(h.next.session) && h.next.session.bytesWritten == 0
      && h.next.session.header == LoadHeader(f.payload)
      && h.next.session.role == Load32(f.payload, HEADER_SIZE)
      && h.flash[..SLOT_SIZE] == ErasedBytes(SLOT_SIZE)
  {
    hide Append, LoadHeader, Load32, IsValidPackageHeader;
    assert ErasedBytes(SLOT_SIZE) + flash[SLOT_SIZE..] == EraseApplication(flash, FlashOk);
  }

  lemma HeaderBound(h: Header)
    requires IsValidPackageHeader(h)
    ensures h.imageSize <= SLOT_SIZE && h.imageSize % 4 == 0
  {
    hide Crc32;
  }

  /** The wrap-around of the device's bounds check is harmless: a block at the write position of a
      bounded session that passes it lies inside the image, hence inside the application slot. */
  lemma AcceptedInsideSlot(s: Session, offset: u32, length: u16)
    requires s.active && Bounded(s)
    requires DataAccepted(s.header.imageSize, offset, length)
    ensures offset == s.bytesWritten ==> offset + length <= s.header.imageSize <= SLOT_SIZE && length % 4 == 0
    ensures offset + length >= WORD ==> offset != s.bytesWritten
  {
    hide Crc32;
  }

  /** Flash up to the new position is `accepted` with `data` behind it. */
  ghost predicate Extended(flash: seq<u8>, flash': seq<u8>, accepted: seq<u8>, data: seq<u8>) {
    && |accepted| + |data| <= |flash| == |flash'|
    && (flash'[..|accepted| + |data|] == accepted + data <==>
          flash[..|accepted|] == accepted && Programmable(flash, |accepted|, data))
  }

  lemma ProgramExtends(flash: seq<u8>, accepted: seq<u8>, data: seq<u8>)
    requires |accepted| + |data| <= |flash|
    ensures Extended(flash, Programmed(flash, |accepted|, data), accepted, data)
  {
    hide And, Programmable, Programmed;
    var n, m := |accepted|, |accepted| + |data|;
    var flash' := Programmed(flash, n, data);
    ProgrammedIsData(flash, n, data);
    assert flash'[..m] == flash'[..n] + flash'[n..m];
    assert (accepted + data)[..n] == accepted && (accepted + data)[n..] == data;
    assert flash'[..m][..n] == flash'[..n] && flash'[..m][n..] == flash'[n..m];
  }

  /** DATA in a bounded session, whatever the frame holds and whether or not programming fails.  Flash
      changes only between the write position and the end of the image; when the position moves it
      moves by the block, and flash behind it is what was there and the block exactly if flash could
      still take the block. */
  lemma BoundedData(j: Pages, flash: seq<u8>, s: Session, f: Frame, fault: StepFault, accepted: seq<u8>)
    requires Sized(j, flash) && s.active && Bounded(s) && |f.payload| >= 4 && |accepted| == s.bytesWritten
    ensures var h := HandleData(j, flash, s, f, fault);
      && h.journal == j && |h.flash| == REGION
      && s.bytesWritten <= s.header.imageSize <= REGION
      && h.flash[..s.bytesWritten] == flash[..s.bytesWritten]
      && h.flash[s.header.imageSize..] == flash[s.header.imageSize..]
      && (h.next.Continue? ==>
            && h.next.session == s.(bytesWritten := h.next.session.bytesWritten) && Bounded(h.next.session)
            && (h.next.session.bytesWritten != s.bytesWritten ==>
                  && h.next.session.bytesWritten == s.bytesWritten + |f.payload| - 4
                  && Extended(flash, h.flash, accepted, f.payload[4..])))
  {
    hide Load32, IsValidPackageHeader, And, Le32, Extended, Programmed, Replaced, Programmable, DataAccepted;
    var offset, data := Load32(f.payload, 0), f.payload[4..];
    HeaderBound(s.header);
    if |data| < 0x1_0000 && DataAccepted(s.header.imageSize, offset, |data|) && offset == s.bytesWritten {
      AcceptedInsideSlot(s, offset, |data|);
      if fault.flash.ProgramStops? && |fault.flash.left| == |data| {
        ReplacedParts(flash, offset, fault.flash.left);
        Outside(flash, Replaced(flash, offset, fault.flash.left), offset, offset + |data|, s.header.imageSize);
      } else {
        ProgrammedIsData(flash, offset, data);
        Outside(flash, Programmed(flash, offset, data), offset, offset + |data|, s.header.imageSize);
        ProgramExtends(flash, accepted, data);
      }
    }
  }

  lemma ReplacedParts(flash: seq<u8>, offset: nat, left: seq<u8>)
    requires offset + |left| <= |flash|
    ensures var r := Replaced(flash, offset, left);
      && r[..offset] == flash[..offset] && r[offset + |left|..] == flash[offset + |left|..]
      && r[offset..offset + |left|] == left
  {
  }

  lemma Outside(flash: seq<u8>, flash': seq<u8>, from: nat, to: nat, end: nat)
    requires from <= to <= end <= |flash| == |flash'|
    requires flash'[..from] == flash[..from] && flash'[to..] == flash[to..]
    ensures flash'[end..] == flash[end..]
  {
    assert flash'[end..] == flash'[to..][end - to..];
    assert flash[end..] == flash[to..][end - to..];
  }

  // ----- what an acknowledgement means --------------------------------------------------------

  ghost predicate Holds(flash: seq<u8>, offset: nat, data: seq<u8>) {
    offset + |data| <= |flash| && flash[offset..offset + |data|] == data
  }

  /** The block is at the write position and its programming stops, with an error or without power. */
  predicate Stops(s: Session, offset: u32, data: seq<u8>, fault: StepFault) {
    && offset == s.bytesWritten && offset + |data| <= REGION
    && fault.flash.ProgramStops? && |fault.flash.left| == |data|
  }

  predicate Acknowledges(h: Handled) { h.next.Continue? && h.next.reply.kind == ACK }

  /** Exactly when a DATA frame is acknowledged: it passes the checks and does not lie behind the write
      position.  And exactly when its bytes are then in flash: a block that was programmed, if flash
      could take it; a block in front of the position, if it was there already; a block whose
      programming failed, if it was completed all the same. */
  lemma AckMeans(j: Pages, flash: seq<u8>, s: Session, f: Frame, fault: StepFault)
    requires Sized(j, flash) && FaultShape(fault) && f.kind == DATA && s.active && |f.payload| >= 4
    ensures var h := Handle(j, flash, s, f, fault);
      var offset, data := Load32(f.payload, 0), f.payload[4..];
      && (Acknowledges(h) <==>
            && 0 < |data| <= 128 && |data| % 4 == 0 && (offset + |data|) % 0x1_0000_0000 <= s.header.imageSize
            && offset <= s.bytesWritten
            && !(Stops(s, offset, data, fault) && fault.flash.powerLost))
      && (Acknowledges(h) ==>
            && h.next.reply.payload == Le32(h.next.session.bytesWritten)
            && (Holds(h.flash, offset, data) <==>
                  if h.next.session.bytesWritten != s.bytesWritten then Programmable(flash, offset, data)
                  else if Stops(s, offset, data, fault) then fault.flash.left == data
                  else Holds(flash, offset, data)))
  {
    hide Load32, Le32, And;
    var offset, data := Load32(f.payload, 0), f.payload[4..];
    if offset == s.bytesWritten && offset + |data| <= REGION {
      if Stops(s, offset, data, fault) {
        ReplacedParts(flash, offset, fault.flash.left);
      } else {
        ProgrammedIsData(flash, offset, data);
      }
    }
  }

  function DataAt(offset: u32, data: seq<u8>, sequence: u16): Frame { Frame(DATA, sequence, Le32(offset) + data) }

  lemma DataAtFields(offset: u32, data: seq<u8>, sequence: u16)
    ensures var f := DataAt(offset, data, sequence);
      f.kind == DATA && f.sequence == sequence && |f.payload| == 4 + |data| && Load32(f.payload, 0) == offset && f.payload[4..] == data
  {
    hide Le32, Load32;
    var f := DataAt(offset, data, sequence);
    assert f.payload[0..4] == Le32(offset);
    LoadStored32(f.payload, 0, offset);
  }

  const ZERO_WORD: seq<u8> := [0, 0, 0, 0]

  /** First way to be acknowledged without having been written: programming fails.  The host learns of
      it from the position only. */
  lemma FailedProgramIsAcknowledged(j: Pages, flash: seq<u8>, s: Session, sequence: u16)
    requires Sized(j, flash) && s.active && s.bytesWritten == 0 && 4 <= s.header.imageSize
    requires flash[..4] == ErasedBytes(4)
    ensures var f, fault := DataAt(0, ZERO_WORD, sequence), StepFault(NoFault, ProgramStops(ErasedBytes(4), false));
      && LegalStep(Device(j, flash, Updating(s)), DoFrame(f, fault))
      && Handle(j, flash, s, f, fault) == Handled(j, flash, Continue(s, Frame(ACK, sequence, Le32(0))))
      && !Holds(flash, 0, ZERO_WORD)
  {
    hide Le32, Load32, DataAt, PartlyDone;
    var f, fault := DataAt(0, ZERO_WORD, sequence), StepFault(NoFault, ProgramStops(ErasedBytes(4), false));
    DataAtFields(0, ZERO_WORD, sequence);
    NothingProgrammed();
    assert flash[0..4] == flash[..4];
    assert flash == Replaced(flash, 0, ErasedBytes(4));
    assert flash[0] == flash[..4][0] == 0xFF;
  }

  lemma NothingProgrammed()
    ensures PartlyDone(ErasedBytes(4), ZERO_WORD, ErasedBytes(4))
  {
    AndSelf(0xFF);
  }

  /** Second way: a block in front of the position is acknowledged whatever its bytes are. */
  lemma StaleBlockIsAcknowledged(j: Pages, flash: seq<u8>, s: Session, data: seq<u8>, sequence: u16)
    requires Sized(j, flash) && s.active && |data| == 128 == s.bytesWritten <= s.header.imageSize
    requires data != flash[..128]
    ensures var f := DataAt(0, data, sequence);
      && Handle(j, flash, s, f, StepFault(NoFault, FlashOk))
         == Handled(j, flash, Continue(s, Frame(ACK, sequence, Le32(128))))
      && !Holds(flash, 0, data)
  {
    hide Le32, Load32;
    DataAtFields(0, data, sequence);
  }

  /** Third way: a block that begins in front of the position and ends behind it is acknowledged, and
      what lies behind the position is not written. */
  lemma OverlappingBlockIsAcknowledged(j: Pages, flash: seq<u8>, s: Session, sequence: u16)
    requires Sized(j, flash) && s.active && s.bytesWritten == 4 && 8 <= s.header.imageSize
    requires flash[4..8] == ErasedBytes(4)
    ensures var f := DataAt(0, flash[..4] + ZERO_WORD, sequence);
      && Handle(j, flash, s, f, StepFault(NoFault, FlashOk))
         == Handled(j, flash, Continue(s, Frame(ACK, sequence, Le32(4))))
      && !Holds(flash, 0, flash[..4] + ZERO_WORD)
  {
    hide Le32, Load32;
    var data := flash[..4] + ZERO_WORD;
    DataAtFields(0, data, sequence);
    assert flash[4..8][0] == 0xFF == flash[0..8][4] && data[4] == 0;
  }

  /** A failed END leaves an install that SET_ROLE can still complete: it is accepted afterwards for
      exactly the images that may boot. */
  lemma SetRoleAfterFailedEnd(j: Pages, flash: seq<u8>, s: Session, end: Frame, fault: StepFault, role: Frame)
    requires Sized(j, flash) && FaultShape(fault)
    requires end.kind == END && end.payload == [] && s.active && EndAccepted(flash, s)
    requires Handle(j, flash, s, end, fault).next.Continue?
    requires |role.payload| == 4 && IsValidAppRole(Load32(role.payload, 0))
    ensures var s' := Handle(j, flash, s, end, fault).next.session;
      && s'.active && s'.metadata == Installed(s)
      && (SetRoleAccepted(flash, s', role) <==> IsApplicationImageValid(Installed(s), flash))
  {
    hide Load32, Append, ImageCrcMatches;
  }

  // ----- sessions with a failed BEGIN ---------------------------------------------------------

  /** The frame makes the device program its block at the write position. */
  ghost predicate ProgramCall(s: Session, f: Frame) {
    && f.kind == DATA && s.active
    && 4 <= |f.payload| < 0x1_0000
    && Load32(f.payload, 0) == s.bytesWritten
    && DataAccepted(s.header.imageSize, s.bytesWritten, |f.payload| - 4)
  }

  ghost predicate OutsideSlot(s: Session, f: Frame) {
    ProgramCall(s, f) && s.bytesWritten + |f.payload| - 4 > SLOT_SIZE
  }

  /** A frame as the device serves it. */
  datatype Arrival = Arrival(frame: Frame, fault: StepFault)

  /** One of the DATA frames makes the device program outside the application slot. */
  ghost predicate Escapes(j: Pages, flash: seq<u8>, s: Session, sent: seq<Arrival>)
    requires Sized(j, flash)
    decreases |sent|
  {
    && sent != [] && sent[0].frame.kind == DATA && FaultShape(sent[0].fault)
    && (OutsideSlot(s, sent[0].frame) ||
        var h := Handle(j, flash, s, sent[0].frame, sent[0].fault);
        h.next.Continue? && Sized(h.journal, h.flash) && Escapes(h.journal, h.flash, h.next.session, sent[1..]))
  }

  /** The header reaches behind the slot, and there is room for a word between position and size. */
  predicate CanEscape(s: Session) {
    && s.active
    && SLOT_SIZE + 4 <= s.header.imageSize
    && s.bytesWritten + 4 <= s.header.imageSize
  }

  /** A session that cannot escape makes no call outside the slot, and a DATA frame leaves it so. */
  lemma CannotEscapeStep(j: Pages, flash: seq<u8>, s: Session, f: Frame, fault: StepFault)
    requires Sized(j, flash) && FaultShape(fault) && f.kind == DATA
    requires s.bytesWritten % 4 == 0 && s.bytesWritten <= REGION && !CanEscape(s)
    ensures !OutsideSlot(s, f)
    ensures var h := Handle(j, flash, s, f, fault);
      h.next.Continue? ==>
        var s' := h.next.session;
        s'.bytesWritten % 4 == 0 && s'.bytesWritten <= REGION && !CanEscape(s')
  {
    hide Load32, Le32, Programmed;
  }

  lemma {:induction false} EscapesMeans(j: Pages, flash: seq<u8>, s: Session, sent: seq<Arrival>)
    requires Sized(j, flash) && s.bytesWritten % 4 == 0 && s.bytesWritten <= REGION
    requires Escapes(j, flash, s, sent)
    ensures CanEscape(s)
    decreases |sent|
  {
    hide Handle, OutsideSlot;
    if !CanEscape(s) {
      CannotEscapeStep(j, flash, s, sent[0].frame, sent[0].fault);
      var h := Handle(j, flash, s, sent[0].frame, sent[0].fault);
      EscapesMeans(h.journal, h.flash, h.next.session, sent[1..]);
    }
  }

  /** The next block on the way out: as long as allowed, and just over the end of the slot if it gets
      there. */
  function StepOut(s: Session): nat {
    if s.bytesWritten >= SLOT_SIZE then 4
    else if s.bytesWritten + 128 > SLOT_SIZE then SLOT_SIZE - s.bytesWritten + 4
    else 128
  }

  lemma StepOutCalls(j: Pages, flash: seq<u8>, s: Session, f: Frame)
    requires Sized(j, flash) && CanEscape(s) && s.bytesWritten % 4 == 0 && s.bytesWritten <= REGION
    requires f == DataAt(s.bytesWritten, ErasedBytes(StepOut(s)), 0)
    ensures ProgramCall(s, f)
    ensures !OutsideSlot(s, f) ==>
      var h := Handle(j, flash, s, f, StepFault(NoFault, FlashOk));
      && h.next.Continue? && Sized(h.journal, h.flash)
      && h.next.session == s.(bytesWritten := s.bytesWritten + 128) && s.bytesWritten + 128 <= SLOT_SIZE
  {
    hide Load32, Le32, Programmed, DataAt;
    DataAtFields(s.bytesWritten, ErasedBytes(StepOut(s)), 0);
  }

  lemma {:induction false} EscapeFound(j: Pages, flash: seq<u8>, s: Session) returns (sent: seq<Arrival>)
    requires Sized(j, flash) && CanEscape(s) && s.bytesWritten % 4 == 0 && s.bytesWritten <= REGION
    ensures Escapes(j, flash, s, sent)
    decreases REGION - s.bytesWritten
  {
    hide Handle, OutsideSlot, DataAt, ProgramCall;
    var f, fault := DataAt(s.bytesWritten, ErasedBytes(StepOut(s)), 0), StepFault(NoFault, FlashOk);
    StepOutCalls(j, flash, s, f);
    DataAtFields(s.bytesWritten, ErasedBytes(StepOut(s)), 0);
    sent := [Arrival(f, fault)];
    if !OutsideSlot(s, f) {
      var h := Handle(j, flash, s, f, fault);
      var more := EscapeFound(h.journal, h.flash, h.next.session);
      sent := sent + more;
      assert sent[1..] == more;
    }
  }

  /** Exactly which active sessions can be made to program outside the slot, by any number of DATA frames
      and with any faults. */
  lemma ProgramsStayInSlot(j: Pages, flash: seq<u8>, s: Session)
    requires Sized(j, flash) && s.bytesWritten % 4 == 0 && s.bytesWritten <= REGION
    ensures (exists sent :: Escapes(j, flash, s, sent)) <==> CanEscape(s)
  {
    hide Escapes;
    if CanEscape(s) {
      var sent := EscapeFound(j, flash, s);
    } else if exists sent :: Escapes(j, flash, s, sent) {
      var sent :| Escapes(j, flash, s, sent);
      EscapesMeans(j, flash, s, sent);
    }
  }

  const BAD_HEADER := NO_HEADER.(imageSize := REGION)

  function BadBegin(sequence: u16): Frame { Frame(BEGIN, sequence, BAD_HEADER.Bytes() + Le32(1)) }

  /** Such sessions are reachable: a BEGIN that is answered ERROR leaves an active session active,
      under a header that was never accepted. */
  lemma FailedBeginCanEscape(j: Pages, flash: seq<u8>, s: Session, sequence: u16)
    requires Sized(j, flash) && s.active && s.bytesWritten + 4 <= REGION
    ensures var h := Handle(j, flash, s, BadBegin(sequence), StepFault(NoFault, FlashOk));
      h.next.Continue? && h.next.reply.kind == ERROR && CanEscape(h.next.session)
  {
    hide IsValidPackageHeader, LoadHeader, Load32;
    HeaderRoundTrip(BAD_HEADER, Le32(1));
    BadHeader(BAD_HEADER);
  }

  lemma BadHeader(h: Header)
    requires h.magic == 0
    ensures !IsValidPackageHeader(h)
  {
  }
}
