/** The one case in which a successful flash operation leaves other bytes than the image: a repeated BEGIN
    that fails while erasing, and contents with the CRC-32 of the image. */
module LinkCollision {
  import opened Words
  import opened Crc
  import opened CrcCode
  import opened Framing
  import opened Journal
  import opened Package
  import opened Device
  import opened DeviceTheorems
  import opened Link
  import opened LinkTheorems
  import opened LinkProgress
  import opened LinkRetries

  // ----- two strings with one CRC-32 ----------------------------------------------------------

  /** The second is the first with the generator's bits, and the bit in front of them, cleared. */
  const IMAGE: seq<u8> := [0xFF, 0xFF, 0xFF, 0xFF, 0xFF, 0xFF, 0xFF, 0xFF]
  const OTHER: seq<u8> := [0xBE, 0xF9, 0x8E, 0x24, 0xFE, 0xFF, 0xFF, 0xFF]

  lemma LsbPair(m: u8, n: u8)
    ensures LsbStream([m, n]) == LsbBits(m, 8) + LsbBits(n, 8)
  {
    hide LsbBits;
    assert [m, n][1..] == [n];
    assert LsbStream([n]) == LsbBits(n, 8);
  }

  lemma FirstPair()
    ensures LsbStream([0xBE, 0xF9]) == [false, true, true, true, true, true, false, true,
                                        true, false, false, true, true, true, true, true]
  {
    hide LsbBits, LsbStream;
    LsbPair(0xBE, 0xF9);
    LsbDigit(0xE, 0xB, 4); LsbFour(0xE, 7, 3, 1); LsbFour(0xB, 5, 2, 1);
    LsbDigit(0x9, 0xF, 4); LsbFour(0x9, 4, 2, 1); LsbFour(0xF, 7, 3, 1);
  }

  lemma SecondPair()
    ensures LsbStream([0x8E, 0x24]) == [false, true, true, true, false, false, false, true,
                                        false, false, true, false, false, true, false, false]
  {
    hide LsbBits, LsbStream;
    LsbPair(0x8E, 0x24);
    LsbDigit(0xE, 0x8, 4); LsbFour(0xE, 7, 3, 1); LsbFour(0x8, 4, 2, 1);
    LsbDigit(0x4, 0x2, 4); LsbFour(0x4, 2, 1, 0); LsbFour(0x2, 1, 0, 0);
  }

  lemma FullPair()
    ensures LsbStream([0xFF, 0xFF]) == Ones(16)
  {
    hide LsbBits, LsbStream;
    LsbPair(0xFF, 0xFF);
    Pow2Of8();
    LsbOnes(8);
  }

  lemma ThirdPair()
    ensures LsbStream([0xFE, 0xFF]) == [false] + Ones(15)
  {
    hide LsbBits, LsbStream;
    LsbPair(0xFE, 0xFF);
    LsbDigit(0xE, 0xF, 4); LsbFour(0xE, 7, 3, 1); LsbFour(0xF, 7, 3, 1);
    Pow2Of8();
    LsbOnes(8);
  }

  lemma ImageStream()
    ensures LsbStream(IMAGE) == [true] + Ones(32) + Ones(31)
  {
    hide LsbBits, LsbStream;
    FullPair();
    var f: seq<u8> := [0xFF, 0xFF];
    assert IMAGE == f + f + f + f;
    LsbStreamConcat(f + f + f, f); LsbStreamConcat(f + f, f); LsbStreamConcat(f, f);
  }

  lemma OtherParts()
    ensures LsbStream(OTHER)
         == LsbStream([0xBE, 0xF9]) + LsbStream([0x8E, 0x24]) + LsbStream([0xFE, 0xFF]) + LsbStream([0xFF, 0xFF])
  {
    hide LsbBits, LsbStream;
    var a: seq<u8>, b: seq<u8>, c: seq<u8>, f: seq<u8> := [0xBE, 0xF9], [0x8E, 0x24], [0xFE, 0xFF], [0xFF, 0xFF];
    assert OTHER == a + b + c + f;
    LsbStreamConcat(a + b + c, f); LsbStreamConcat(a + b, c); LsbStreamConcat(a, b);
  }

  lemma ClearedGenerator()
    ensures XorBits(Ones(32), POLY32) ==
      [true, true, true, true, true, false, true, true, false, false, true, true, true, true, true, false,
       true, true, true, false, false, false, true, false, false, true, false, false, true, false, false, false]
  {
  }

  function Cleared(): Bits { [false] + XorBits(Ones(32), POLY32) }

  lemma ClearedLow()
    ensures |Cleared()| == 33 && LsbStream([0xBE, 0xF9]) == Cleared()[..16]
  {
    hide LsbBits, LsbStream, XorBits;
    FirstPair();
    ClearedGenerator();
    forall i | 0 <= i < 16 ensures LsbStream([0xBE, 0xF9])[i] == Cleared()[i] {
    }
  }

  lemma ClearedHigh()
    ensures |Cleared()| == 33 && LsbStream([0x8E, 0x24]) == Cleared()[16..32] && [false] == Cleared()[32..]
  {
    hide LsbBits, LsbStream, XorBits;
    SecondPair();
    ClearedGenerator();
    forall i | 0 <= i < 16 ensures LsbStream([0x8E, 0x24])[i] == Cleared()[16 + i] {
    }
  }

  lemma OtherStream()
    ensures LsbStream(OTHER) == Cleared() + Ones(31)
  {
    hide LsbBits, LsbStream, XorBits, Cleared;
    OtherParts();
    ClearedLow();
    ClearedHigh();
    ThirdPair();
    FullPair();
    assert Ones(31) == Ones(15) + Ones(16);
    var c := Cleared();
    assert c == c[..16] + c[16..32] + c[32..];
  }

  lemma SameCrc()
    ensures Crc32(IMAGE) == Crc32(OTHER) && IMAGE != OTHER
  {
    hide LsbStream, Feed, LsbValue, Not;
    ImageStream();
    OtherStream();
    GeneratorGoesUnnoticed(POLY32, Ones(32), [], true, Ones(32), Ones(31));
    assert [] + ([true] + Ones(32)) + Ones(31) == LsbStream(IMAGE);
    assert [] + Cleared() + Ones(31) == LsbStream(OTHER);
    assert IMAGE[0] != OTHER[0];
  }

  // ----- a run that installs the other one ----------------------------------------------------

  function EightBytes(): seq<u8> { BuiltHeader(IMAGE, FIRMWARE_TARGET_ID, 1).Bytes() + IMAGE }

  ghost predicate OfImage(job: Job) {
    && job.info.image == IMAGE && job.info.header.imageSize == 8 && job.info.header.imageCrc32 == Crc32(IMAGE)
    && IsValidPackageHeader(job.info.header) && IsValidAppRole(job.role)
  }

  lemma EightBytesParse(role: u32, requests: bool)
    requires IsValidAppRole(role)
    ensures Parse(EightBytes()).Ok? && OfImage(JobOf(EightBytes(), role, requests))
  {
    hide Parse, Crc32, IsValidPackageHeader, BuiltHeader;
    BuildThenParse(IMAGE, FIRMWARE_TARGET_ID, 1);
    assert Pad(IMAGE) == IMAGE;
    HeaderCrc(IMAGE, FIRMWARE_TARGET_ID, 1);
  }

  lemma HeaderCrc(image: seq<u8>, target: u32, version: u32)
    requires |image| <= SLOT_SIZE
    ensures BuiltHeader(image, target, version).imageCrc32 == Crc32(image)
  {
    hide Crc32;
  }

  /** The erase stops in the first page and leaves the other string at its start. */
  const LEFT: seq<u8> := OTHER + ErasedBytes(PAGE_SIZE - 8)
  const STOPPED := StepFault(NoFault, EraseStops(0, LEFT, false))

  /** A session of the job at a write position. */
  ghost predicate AtPosition(job: Job, d: Device, written: nat) {
    && Sized(d.journal, d.flash)
    && d.mode.Updating? && d.mode.session.active
    && d.mode.session.header == job.info.header && d.mode.session.bytesWritten == written
  }

  /** The device goes on with this answer. */
  ghost predicate Answers(d: Device, f: Frame, fault: StepFault, d': Device, kind: u8, payload: seq<u8>) {
    && LegalStep(d, DoFrame(f, fault)) && d' == Apply(d, DoFrame(f, fault)) && d'.mode.Updating?
    && Handle(d.journal, d.flash, d.mode.session, f, fault)
       == Handled(d'.journal, d'.flash, Continue(d'.mode.session, Frame(kind, f.sequence, payload)))
  }

  lemma FirstBegin(job: Job, d: Device, f: Frame) returns (d': Device)
    requires OfImage(job) && BeginFrame(job, f) && d.mode.Updating? && Sized(d.journal, d.flash)
    ensures Answers(d, f, NO_FAULT, d', READY, Le32(0))
    ensures AtPosition(job, d', 0) && d'.flash[0] == 0xFF
  {
    hide Append, LoadHeader, Load32, Le32, IsValidPackageHeader, Crc32;
    BeginFields(job, f);
    AppendWithoutFault(d.journal, DEFAULT);
    d' := Apply(d, DoFrame(f, NO_FAULT));
  }

  /** A repeated BEGIN that fails while erasing leaves the session as it was. */
  lemma SecondBegin(job: Job, d: Device, f: Frame) returns (d': Device)
    requires OfImage(job) && BeginFrame(job, f) && AtPosition(job, d, 0)
    ensures Answers(d, f, STOPPED, d', ERROR, [])
    ensures AtPosition(job, d', 0) && d'.flash[..8] == OTHER
  {
    hide Append, LoadHeader, Load32, Le32, IsValidPackageHeader, Crc32;
    BeginFields(job, f);
    AppendWithoutFault(d.journal, DEFAULT);
    d' := Apply(d, DoFrame(f, STOPPED));
    assert d'.flash == LEFT + d.flash[PAGE_SIZE..];
    assert LEFT[..8] == OTHER;
  }

  lemma OtherAbsorbs(b: u8)
    ensures And(b, 0xFF) == b
  {
    Pow2Of8();
    AndCommutes(b, 0xFF);
    AndOnes(8, b);
  }

  lemma {:induction false} AndCommutes(a: nat, b: nat)
    ensures And(a, b) == And(b, a)
    decreases a
  {
    if a != 0 && b != 0 {
      AndCommutes(a / 2, b / 2);
    }
  }

  /** The image clears no bit, so programming it leaves the other string. */
  lemma ProgrammedImage(flash: seq<u8>)
    requires |flash| >= 8
    ensures Programmed(flash, 0, IMAGE) == flash
  {
    hide And;
    var r := Programmed(flash, 0, IMAGE);
    forall i | 0 <= i < |flash| ensures r[i] == flash[i] {
      if i < 8 {
        OtherAbsorbs(flash[i]);
      }
    }
  }

  /** The dialogue at a write position. */
  ghost predicate Ongoing(job: Job, c: Dialogue, written: nat) {
    && Ready(job, c)
    && c.session.active && c.session.header == job.info.header && c.session.bytesWritten == written
  }

  lemma DataExchange(job: Job, sequence: u16, c: Dialogue)
    requires OfImage(job) && Ongoing(job, c, 0) && c.phase == Sending(0)
    ensures Exchange(job, sequence, c) == c.(phase := Ending, session := c.session.(bytesWritten := 8))
  {
    hide Load32, Le32, Programmed, Crc32, IsValidPackageHeader;
    var payload := RequestPayload(job, c.phase);
    assert Chunk(IMAGE, 0) == IMAGE;
    assert payload[0..4] == Le32(0) && payload[4..] == IMAGE;
    LoadStored32(payload, 0, 0);
    ProgrammedImage(c.flash);
    AnswerLoads(8);
  }

  lemma EndExchange(job: Job, sequence: u16, c: Dialogue)
    requires OfImage(job) && Ongoing(job, c, 8) && c.phase == Ending && c.flash[..8] == OTHER
    ensures Exchange(job, sequence, c).phase == Done && Exchange(job, sequence, c).flash == c.flash
  {
    hide Append, IsValidPackageHeader, Crc32;
    SameCrc();
    assert EndAccepted(c.flash, c.session);
    AppendWithoutFault(c.journal, Installed(c.session));
  }

  /** One BEGIN times out and is repeated; both are on the wire. */
  lemma SendTwice(job: Job, s: System) returns (states: seq<System>)
    requires s.host.phase == Beginning && s.host.tries == FRAME_RETRIES && !s.host.waiting && s.up == []
    ensures SystemRun(job, states, [Send, TimeOut, Send]) && states[0] == s
    ensures var m := Msg(s.host.index, Request(job, s.host));
      states[3] == s.(host := s.host.(tries := FRAME_RETRIES - 2, waiting := true), up := [m, m])
  {
    hide RequestPayload;
    var s1 := Happen(job, s, Send);
    var s2 := Happen(job, s1, TimeOut);
    var s3 := Happen(job, s2, Send);
    states := [s, s1, s2, s3];
    assert EventAt(job, states, [Send, TimeOut, Send], 0);
    assert EventAt(job, states, [Send, TimeOut, Send], 1);
    assert EventAt(job, states, [Send, TimeOut, Send], 2);
  }

  /** The device serves a frame and goes on. */
  lemma ServeOne(job: Job, s: System, fault: StepFault, d: Device, kind: u8, payload: seq<u8>) returns (s': System)
    requires s.up != [] && Answers(s.device, s.up[0].frame, fault, d, kind, payload)
    ensures Possible(job, s, Serve(fault)) && s' == Happen(job, s, Serve(fault))
    ensures var m := s.up[0];
      && s'.host == s.host && s'.device == d && s'.up == s.up[1..]
      && s'.down == s.down + [Msg(m.tag, Frame(kind, m.frame.sequence, payload))]
      && s'.dirty ==
           if kind == READY then false
           else if m.frame.kind == BEGIN && kind == ERROR && d.flash != s.device.flash
           then !Toward(d.flash, job.info.image, d.mode.session.bytesWritten)
           else s.dirty
  {
    hide Handle, LegalStep, Apply, Toward;
    s' := Happen(job, s, Serve(fault));
  }

  lemma ServeBoth(job: Job, s: System) returns (states: seq<System>)
    requires OfImage(job) && s.device.mode.Updating? && Sized(s.device.journal, s.device.flash)
    requires |s.up| == 2 && s.up[0] == s.up[1] && BeginFrame(job, s.up[0].frame)
    ensures SystemRun(job, states, [Serve(NO_FAULT), Serve(STOPPED)]) && states[0] == s
    ensures var last, m := states[2], s.up[0];
      && last.host == s.host && last.up == [] && last.dirty
      && last.down == s.down + [Msg(m.tag, Frame(READY, m.frame.sequence, Le32(0)))]
                             + [Msg(m.tag, Frame(ERROR, m.frame.sequence, []))]
      && AtPosition(job, last.device, 0) && last.device.flash[..8] == OTHER
  {
    hide Answers, Possible, Happen, OfImage, BeginFrame, Le32, Toward;
    var f := s.up[0].frame;
    var d1 := FirstBegin(job, s.device, f);
    var d2 := SecondBegin(job, d1, f);
    assert f.kind == BEGIN by { BeginKind(job, f); }
    Differ(d1.flash, d2.flash);
    ImageOf(job);
    OtherIsAstray(d2.flash, d2.mode.session.bytesWritten);
    var s1 := ServeOne(job, s, NO_FAULT, d1, READY, Le32(0));
    var s2 := ServeOne(job, s1, STOPPED, d2, ERROR, []);
    states := [s, s1, s2];
    assert EventAt(job, states, [Serve(NO_FAULT), Serve(STOPPED)], 0);
    assert EventAt(job, states, [Serve(NO_FAULT), Serve(STOPPED)], 1);
  }

  lemma BeginKind(job: Job, f: Frame)
    requires BeginFrame(job, f)
    ensures f.kind == BEGIN
  {
  }

  lemma Differ(flash: seq<u8>, flash': seq<u8>)
    requires |flash| >= 8 && |flash'| >= 8 && flash[0] == 0xFF && flash'[..8] == OTHER
    ensures flash' != flash
  {
    assert flash'[0] == flash'[..8][0] == 0xBE;
  }

  /** The other string lacks bits that the image needs. */
  lemma OtherIsAstray(flash: seq<u8>, written: nat)
    requires |flash| >= 8 && flash[..8] == OTHER
    ensures !Toward(flash, IMAGE, written)
  {
    assert flash[0] == flash[..8][0] == 0xBE && IMAGE[0] == 0xFF;
    OtherAbsorbs(0xBE);
  }

  lemma TakeReady(job: Job, s: System, e: Msg) returns (states: seq<System>)
    requires job.info.image == IMAGE && s.host.phase == Beginning && s.host.waiting
    requires s.down == [Msg(s.host.index, Frame(READY, SequenceOf(s.host.index), Le32(0))), e]
    ensures SystemRun(job, states, [Receive, LoseDown(0)]) && states[0] == s
    ensures states[2] == s.(host := Host(s.host.index + 1, Sending(0), FRAME_RETRIES, false), down := [])
  {
    hide Le32, Load32;
    AnswerLoads(0);
    var s1 := Happen(job, s, Receive);
    var s2 := Happen(job, s1, LoseDown(0));
    states := [s, s1, s2];
    assert EventAt(job, states, [Receive, LoseDown(0)], 0);
    assert EventAt(job, states, [Receive, LoseDown(0)], 1);
  }

  lemma RoundRuns(job: Job, s: System, s1: System, s2: System, s3: System)
    requires Rounds(job, s, s1, s2, s3)
    ensures SystemRun(job, [s, s1, s2, s3], ROUND)
  {
    hide Possible, Happen;
    var states := [s, s1, s2, s3];
    assert EventAt(job, states, ROUND, 0);
    assert EventAt(job, states, ROUND, 1);
    assert EventAt(job, states, ROUND, 2);
  }

  /** DATA and END are served as if nothing had happened. */
  lemma DataAndEnd(job: Job, s: System) returns (states: seq<System>)
    requires OfImage(job) && Quiet(job, s) && s.host.phase == Sending(0) && s.host.tries > 0
    requires s.dirty && AtPosition(job, s.device, 0) && s.device.flash[..8] == OTHER
    ensures SystemRun(job, states, ROUND + ROUND) && states[0] == s
    ensures var last := states[6];
      last.host.phase == Done && last.dirty && |last.device.flash| >= 8 && last.device.flash[..8] == OTHER
  {
    hide Rounds, OfImage, Exchange;
    DataExchange(job, SequenceOf(s.host.index), Between(s));
    var s1, s2, s3 := RoundIsExchange(job, s);
    EndExchange(job, SequenceOf(s3.host.index), Between(s3));
    var s4, s5, s6 := RoundIsExchange(job, s3);
    RoundRuns(job, s, s1, s2, s3);
    RoundRuns(job, s3, s4, s5, s6);
    Join(job, [s, s1, s2, s3], ROUND, [s3, s4, s5, s6], ROUND);
    states := [s, s1, s2, s3][..3] + [s3, s4, s5, s6];
  }

  const SENT_TWICE: seq<Event> := [Send, TimeOut, Send]
  const SERVED_TWICE: seq<Event> := [Serve(NO_FAULT), Serve(STOPPED)]
  const READY_TAKEN: seq<Event> := [Receive, LoseDown(0)]

  lemma SessionFromBegins(job: Job, s: System) returns (states: seq<System>)
    requires OfImage(job) && s.host.phase == Beginning && s.host.tries == FRAME_RETRIES && !s.host.waiting
    requires s.up == [] && s.down == [] && s.device.mode.Updating? && Sized(s.device.journal, s.device.flash)
    ensures SystemRun(job, states, SENT_TWICE + SERVED_TWICE + READY_TAKEN) && states[0] == s
    ensures var last := states[7];
      && Quiet(job, last) && last.host.phase == Sending(0) && last.host.tries > 0
      && last.dirty && AtPosition(job, last.device, 0) && last.device.flash[..8] == OTHER
  {
    hide EventAt, Crc32, IsValidPackageHeader, RequestPayload;
    BeginRequest(job, s.host);
    var a := SendTwice(job, s);
    var b := ServeBoth(job, a[3]);
    var c := TakeReady(job, b[2], b[2].down[1]);
    Join(job, a, SENT_TWICE, b, SERVED_TWICE);
    Join(job, a[..3] + b, SENT_TWICE + SERVED_TWICE, c, READY_TAKEN);
    states := (a[..3] + b)[..5] + c;
  }

  lemma BeginRequest(job: Job, h: Host)
    requires h.phase == Beginning
    ensures BeginFrame(job, Request(job, h)) && Request(job, h).sequence == SequenceOf(h.index)
  {
  }

  /** The exception in the operation's promise is real.  On every device in update mode there is a run in
      which the host flashes eight 0xFF bytes and reports success, and flash holds other bytes: READY
      comes late, the repeated BEGIN fails while erasing, and DATA and END are served. */
  lemma SuccessWithOtherBytes(role: u32, s: System) returns (states: seq<System>)
    requires IsValidAppRole(role) && Starts(EightBytes(), role, s)
    requires s.up == [] && s.down == [] && s.device.mode.Updating?
    ensures SystemRun(JobOf(EightBytes(), role, false), states,
                      SENT_TWICE + SERVED_TWICE + READY_TAKEN + (ROUND + ROUND))
    ensures states[0] == s && JobOf(EightBytes(), role, false).info.image == IMAGE
    ensures var last := states[13];
      && last.host.phase == Done && last.dirty
      && |last.device.flash| >= 8 && last.device.flash[..8] == OTHER != IMAGE
  {
    hide Parse, EventAt, EightBytes, OfImage, Ordered, NoValidBeyond, TagsOk, Tags;
    EightBytesParse(role, false);
    var job := JobOf(EightBytes(), role, false);
    var a := SessionFromBegins(job, s);
    var b := DataAndEnd(job, a[7]);
    Join(job, a, SENT_TWICE + SERVED_TWICE + READY_TAKEN, b, ROUND + ROUND);
    states := a[..7] + b;
    assert OTHER[0] != IMAGE[0];
    ImageOf(job);
  }

  lemma ImageOf(job: Job)
    requires OfImage(job)
    ensures job.info.image == IMAGE
  {
  }
}
