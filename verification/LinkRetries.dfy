/** The host's retries: which losses an operation survives. */
module LinkRetries {
  import opened Words
  import opened Crc
  import opened Framing
  import opened Journal
  import opened Package
  import opened Device
  import opened DeviceTheorems
  import opened Link
  import opened LinkTheorems
  import opened LinkProgress

  // ----- repeated requests --------------------------------------------------------------------

  /** A repeated DATA frame changes nothing and gets the same answer, in every session. */
  lemma RepeatedData(j: Pages, flash: seq<u8>, s: Session, f: Frame)
    requires Sized(j, flash) && f.kind == DATA
    ensures var h := Handle(j, flash, s, f, NO_FAULT);
      && h.next.Continue? && Sized(h.journal, h.flash)
      && Handle(h.journal, h.flash, h.next.session, f, NO_FAULT) == h
  {
    hide Load32, Le32, Programmed;
  }

  /** A repeated BEGIN gets the same answer and leaves the same slot, session and record. */
  lemma RepeatedBegin(j: Pages, flash: seq<u8>, s: Session, f: Frame)
    requires Inv(j) && Sized(j, flash) && f.kind == BEGIN && |f.payload| == HEADER_SIZE + 4
    ensures var h := Handle(j, flash, s, f, NO_FAULT);
      && h.next.Continue? && Sized(h.journal, h.flash)
      && var h' := Handle(h.journal, h.flash, h.next.session, f, NO_FAULT);
         h'.flash == h.flash && h'.next == h.next && Read(h'.journal) == Read(h.journal)
  {
    hide Ordered, NoValidBeyond, Append, Read, Load32, LoadHeader, IsValidPackageHeader, Le32;
    assert Legal(j, DEFAULT, NoFault);
    AppendReads(j, DEFAULT, NoFault);
    AppendReads(Append(j, DEFAULT, NoFault).0, DEFAULT, NoFault);
    AppendWithoutFault(j, DEFAULT);
    AppendWithoutFault(Append(j, DEFAULT, NoFault).0, DEFAULT);
  }

  // ----- one request --------------------------------------------------------------------------

  ghost function Between(s: System): Dialogue
    requires s.device.mode.Updating?
  {
    Dialogue(s.host.phase, s.device.journal, s.device.flash, s.device.mode.session)
  }

  /** Nothing is in flight and the host is about to make its next request. */
  ghost predicate Quiet(job: Job, s: System) {
    && s.host.phase.Working() && !s.host.waiting
    && s.up == [] && s.down == []
    && s.device.mode.Updating?
    && Ready(job, Between(s))
  }

  const ROUND: seq<Event> := [Send, Serve(NO_FAULT), Receive]

  /** A request is sent, served and answered. */
  ghost predicate Rounds(job: Job, s: System, s1: System, s2: System, s3: System) {
    && Possible(job, s, Send) && s1 == Happen(job, s, Send)
    && Possible(job, s1, Serve(NO_FAULT)) && s2 == Happen(job, s1, Serve(NO_FAULT))
    && Possible(job, s2, Receive) && s3 == Happen(job, s2, Receive)
  }

  lemma NoFaultIsLegal(d: Device, f: Frame)
    requires d.mode.Updating? && Sized(d.journal, d.flash)
    ensures LegalStep(d, DoFrame(f, NO_FAULT))
  {
    hide Written, Load32;
  }

  lemma NoFaultAnswers(j: Pages, flash: seq<u8>, s: Session, f: Frame)
    requires Sized(j, flash)
    ensures var next := Handle(j, flash, s, f, NO_FAULT).next;
      !next.Dark? && next.reply.sequence == f.sequence && (next.Reboot? <==> next.reply.kind == COMPLETE)
  {
    hide Append, LoadHeader, Load32, IsValidPackageHeader, EndAccepted, ImageCrcMatches;
    AppendWithoutFault(j, DEFAULT);
    AppendWithoutFault(j, Installed(s));
    if |f.payload| == 4 {
      AppendWithoutFault(j, s.metadata.(state := STATE_VALID, appRole := Load32(f.payload, 0)));
    }
  }

  ghost function After(job: Job, s: System): Dialogue
    requires Quiet(job, s)
  {
    Exchange(job, SequenceOf(s.host.index), Between(s))
  }

  /** One round of the system is one exchange of the dialogue. */
  lemma RoundIsExchange(job: Job, s: System) returns (s1: System, s2: System, s3: System)
    requires Quiet(job, s) && s.host.tries > 0 && After(job, s).phase != GaveUp
    ensures Rounds(job, s, s1, s2, s3)
    ensures s3.up == [] && s3.down == []
    ensures s3.host == Follow(s.host.(tries := s.host.tries - 1, waiting := true), After(job, s).phase)
    ensures s3.device.journal == After(job, s).journal && s3.device.flash == After(job, s).flash
    ensures s3.device.mode == if s.host.phase.Ending? then Off else Updating(After(job, s).session)
    ensures !s.host.phase.Beginning? ==> s3.dirty == s.dirty
  {
    hide Handle, LegalStep, Advance, RequestPayload;
    var d, f := s.device, Request(job, s.host);
    s1 := Happen(job, s, Send);
    NoFaultIsLegal(d, f);
    NoFaultAnswers(d.journal, d.flash, d.mode.session, f);
    ReplySequence(d, f, NO_FAULT);
    s2 := Happen(job, s1, Serve(NO_FAULT));
    s3 := Happen(job, s2, Receive);
  }


  /** The answer of a round is lost instead of received. */
  lemma LoseAnswer(job: Job, s: System, s1: System, s2: System, s3: System) returns (s4: System, s5: System)
    requires Quiet(job, s) && Rounds(job, s, s1, s2, s3) && s3.down == []
    ensures Possible(job, s2, LoseDown(0)) && s4 == Happen(job, s2, LoseDown(0))
    ensures Possible(job, s4, TimeOut) && s5 == Happen(job, s4, TimeOut)
    ensures s5 == s3.(host := s.host.(tries := s.host.tries - 1))
  {
    hide Handle, LegalStep, Advance, RequestPayload;
    s4 := Happen(job, s2, LoseDown(0));
    s5 := Happen(job, s4, TimeOut);
  }

  /** In an operation under way no exchange makes the host give up. */
  lemma ExchangeGoesOn(job: Job, s: System)
    requires ValidJob(job) && Quiet(job, s) && UnderWay(job, Between(s))
    ensures After(job, s).phase != GaveUp
    ensures s.host.phase.Ending? ==> Finished(job, After(job, s))
    ensures !s.host.phase.Ending? ==>
      UnderWay(job, After(job, s)) && Remaining(job, After(job, s).phase) == Remaining(job, s.host.phase) - 1
  {
    hide Exchange, ValidJob, Ours;
    var sequence, c := SequenceOf(s.host.index), Between(s);
    match c.phase {
      case Beginning => ExchangeBegin(job, sequence, c);
      case Sending(_) => ExchangeData(job, sequence, c);
      case Ending => ExchangeEnd(job, sequence, c);
    }
  }

  // ----- lost transmissions -------------------------------------------------------------------

  datatype Loss = RequestLost | AnswerLost

  /** A transmission that the host sees time out. */
  function LostAttempt(loss: Loss): seq<Event> {
    match loss
    case RequestLost => [Send, LoseUp(0), TimeOut]
    case AnswerLost => [Send, Serve(NO_FAULT), LoseDown(0), TimeOut]
  }

  function LostAttempts(losses: seq<Loss>): seq<Event> {
    if losses == [] then [] else LostAttempt(losses[0]) + LostAttempts(losses[1..])
  }

  /** A request whose last transmission is answered. */
  function Attempts(losses: seq<Loss>): seq<Event> { LostAttempts(losses) + ROUND }

  /** What happens in an operation in which request number i suffers the losses number i. */
  function Script(losses: seq<seq<Loss>>): seq<Event> {
    if losses == [] then [] else Attempts(losses[0]) + Script(losses[1..])
  }

  lemma Join(job: Job, a: seq<System>, first: seq<Event>, b: seq<System>, second: seq<Event>)
    requires SystemRun(job, a, first) && SystemRun(job, b, second) && a[|first|] == b[0]
    ensures SystemRun(job, a[..|first|] + b, first + second)
  {
    hide Possible, Happen;
    var states, events := a[..|first|] + b, first + second;
    forall i | 0 <= i < |events| ensures EventAt(job, states, events, i) {
      if i < |first| {
        assert EventAt(job, a, first, i);
        assert states[i + 1] == a[i + 1];
      } else {
        assert EventAt(job, b, second, i - |first|);
      }
    }
  }

  ghost predicate Good(job: Job, s: System) {
    Quiet(job, s) && UnderWay(job, Between(s))
  }

  lemma RequestLostAttempt(job: Job, s: System) returns (states: seq<System>)
    requires Good(job, s) && s.host.tries > 0
    ensures SystemRun(job, states, LostAttempt(RequestLost)) && states[0] == s
    ensures Good(job, states[3]) && states[3].host == s.host.(tries := s.host.tries - 1)
  {
    hide RequestPayload, UnderWay;
    var s1 := Happen(job, s, Send);
    var s2 := Happen(job, s1, LoseUp(0));
    var s3 := Happen(job, s2, TimeOut);
    states := [s, s1, s2, s3];
    assert EventAt(job, states, LostAttempt(RequestLost), 0);
    assert EventAt(job, states, LostAttempt(RequestLost), 1);
    assert EventAt(job, states, LostAttempt(RequestLost), 2);
  }

  lemma ServedKeepsUnderWay(job: Job, sequence: u16, c: Dialogue)
    requires ValidJob(job) && UnderWay(job, c) && !c.phase.Ending?
    ensures UnderWay(job, Exchange(job, sequence, c).(phase := c.phase))
  {
    hide Exchange, ValidJob, Ours;
    if c.phase.Beginning? {
      ExchangeBegin(job, sequence, c);
    } else {
      ExchangeData(job, sequence, c);
    }
  }

  lemma AnswerLostAttempt(job: Job, s: System) returns (states: seq<System>)
    requires ValidJob(job) && Good(job, s) && s.host.tries > 0 && !s.host.phase.Ending?
    ensures SystemRun(job, states, LostAttempt(AnswerLost)) && states[0] == s
    ensures Good(job, states[4]) && states[4].host == s.host.(tries := s.host.tries - 1)
  {
    hide Happen, Ours, ValidJob, Exchange;
    ServedKeepsUnderWay(job, SequenceOf(s.host.index), Between(s));
    ExchangeGoesOn(job, s);
    var s1, s2, s3' := RoundIsExchange(job, s);
    var s3, s4 := LoseAnswer(job, s, s1, s2, s3');
    states := [s, s1, s2, s3, s4];
    assert EventAt(job, states, LostAttempt(AnswerLost), 0);
    assert EventAt(job, states, LostAttempt(AnswerLost), 1);
    assert EventAt(job, states, LostAttempt(AnswerLost), 2);
    assert EventAt(job, states, LostAttempt(AnswerLost), 3);
  }

  predicate Survivable(phase: Phase, losses: seq<Loss>) {
    phase.Ending? ==> AnswerLost !in losses
  }

  /** Lost transmissions cost retries and nothing else. */
  lemma {:induction false} LostRequests(job: Job, s: System, losses: seq<Loss>) returns (states: seq<System>)
    requires ValidJob(job) && Good(job, s) && |losses| <= s.host.tries && Survivable(s.host.phase, losses)
    ensures SystemRun(job, states, LostAttempts(losses)) && states[0] == s
    ensures var last := states[|LostAttempts(losses)|];
      Good(job, last) && last.host == s.host.(tries := s.host.tries - |losses|)
    decreases |losses|
  {
    hide Happen, Possible, UnderWay, ValidJob;
    if losses == [] {
      states := [s];
    } else {
      var first, n := LostAttempt(losses[0]), |LostAttempt(losses[0])|;
      if losses[0] == RequestLost {
        states := RequestLostAttempt(job, s);
      } else {
        states := AnswerLostAttempt(job, s);
      }
      var more := LostRequests(job, states[n], losses[1..]);
      Join(job, states, first, more, LostAttempts(losses[1..]));
      states := states[..n] + more;
    }
  }

  lemma AnsweredRound(job: Job, s: System) returns (states: seq<System>)
    requires ValidJob(job) && Good(job, s) && s.host.tries > 0
    ensures SystemRun(job, states, ROUND) && states[0] == s
    ensures s.host.phase.Ending? ==> Completed(job, states[3])
    ensures !s.host.phase.Ending? ==>
      && Good(job, states[3]) && states[3].host.tries == FRAME_RETRIES
      && Remaining(job, states[3].host.phase) == Remaining(job, s.host.phase) - 1
  {
    hide Happen, Possible, Exchange, Ours, ValidJob;
    ExchangeGoesOn(job, s);
    var s1, s2, s3 := RoundIsExchange(job, s);
    states := [s, s1, s2, s3];
    assert EventAt(job, states, ROUND, 0);
    assert EventAt(job, states, ROUND, 1);
    assert EventAt(job, states, ROUND, 2);
  }

  lemma OneRequest(job: Job, s: System, losses: seq<Loss>) returns (states: seq<System>)
    requires ValidJob(job) && Good(job, s) && |losses| < s.host.tries && Survivable(s.host.phase, losses)
    ensures SystemRun(job, states, Attempts(losses)) && states[0] == s
    ensures var last := states[|Attempts(losses)|];
      if s.host.phase.Ending? then Completed(job, last) else
        && Good(job, last) && last.host.tries == FRAME_RETRIES
        && Remaining(job, last.host.phase) == Remaining(job, s.host.phase) - 1
  {
    hide Happen, Possible, UnderWay, ValidJob, LostAttempts, Completed;
    var lost := LostAttempts(losses);
    var tried := LostRequests(job, s, losses);
    var round := AnsweredRound(job, tried[|lost|]);
    Join(job, tried, lost, round, ROUND);
    states := tried[..|lost|] + round;
  }

  ghost predicate Completed(job: Job, s: System) {
    s.host.phase == Done && HoldsImage(job, s.device)
  }

  ghost predicate HoldsImage(job: Job, d: Device) {
    |job.info.image| <= |d.flash| && d.flash[..|job.info.image|] == job.info.image
  }

  /** Each request loses fewer transmissions than it has, and END's answer is not lost. */
  predicate Tolerable(losses: seq<seq<Loss>>) {
    && (forall i | 0 <= i < |losses| :: |losses[i]| <= 4)
    && (losses != [] ==> AnswerLost !in losses[|losses| - 1])
  }

  /** Whatever is lost within these limits, in whatever pattern, the operation completes. */
  lemma {:induction false} LossesSurvived(job: Job, s: System, losses: seq<seq<Loss>>) returns (states: seq<System>)
    requires ValidJob(job) && Good(job, s) && s.host.tries == FRAME_RETRIES
    requires Tolerable(losses) && |losses| == Remaining(job, s.host.phase)
    ensures SystemRun(job, states, Script(losses)) && states[0] == s
    ensures Completed(job, states[|Script(losses)|])
    decreases |losses|
  {
    hide Happen, Possible, UnderWay, ValidJob, Attempts, Script, Completed, Remaining;
    LastRequest(job, s.host.phase);
    ScriptStep(losses);
    var first, n := Attempts(losses[0]), |Attempts(losses[0])|;
    states := OneRequest(job, s, losses[0]);
    if s.host.phase.Ending? {
      assert losses[1..] == [];
    } else {
      var more := LossesSurvived(job, states[n], losses[1..]);
      Join(job, states, first, more, Script(losses[1..]));
      states := states[..n] + more;
    }
  }

  lemma ScriptStep(losses: seq<seq<Loss>>)
    requires losses != []
    ensures Script(losses) == Attempts(losses[0]) + Script(losses[1..])
    ensures |losses| == 1 ==> Script(losses) == Attempts(losses[0])
  {
    hide Attempts;
  }

  lemma LastRequest(job: Job, phase: Phase)
    requires phase.Working() && PhaseOk(job, phase)
    ensures Remaining(job, phase) >= 1 && (phase.Ending? <==> Remaining(job, phase) == 1)
  {
  }

  /** The bound is sharp: a request that loses all its transmissions ends the operation. */
  lemma TooManyLosses(job: Job, s: System, losses: seq<Loss>) returns (states: seq<System>)
    requires ValidJob(job) && Good(job, s) && |losses| == s.host.tries && Survivable(s.host.phase, losses)
    ensures SystemRun(job, states, LostAttempts(losses) + [GiveUp]) && states[0] == s
    ensures states[|LostAttempts(losses)| + 1].host.phase == GaveUp
  {
    hide UnderWay, ValidJob, LostAttempts;
    var lost := LostAttempts(losses);
    var tried := LostRequests(job, s, losses);
    var last := [tried[|lost|], Happen(job, tried[|lost|], GiveUp)];
    assert EventAt(job, last, [GiveUp], 0);
    Join(job, tried, lost, last, [GiveUp]);
    states := tried[..|lost|] + last;
  }

  /** The host tool's promise on a working device: of every package the device accepts, with every
      pattern of up to four losses for each request, flash completes, and the device then has the image
      and a valid record of it. */
  lemma FlashSurvivesLosses(package: seq<u8>, role: u32, s: System, losses: seq<seq<Loss>>) returns (states: seq<System>)
    requires Starts(package, role, s) && s.up == [] && s.down == [] && s.device.mode.Updating?
    requires IsValidPackageHeader(JobOf(package, role, false).info.header) && IsValidAppRole(role)
    requires Tolerable(losses)
    requires |losses| == 2 + (|JobOf(package, role, false).info.image| + CHUNK_SIZE - 1) / CHUNK_SIZE
    ensures SystemRun(JobOf(package, role, false), states, Script(losses)) && states[0] == s
    ensures var last, info := states[|Script(losses)|], Parse(package).value;
      && Completed(JobOf(package, role, false), last)
      && Read(last.device.journal).Some?
      && var m := Read(last.device.journal).value;
         && m.state == STATE_VALID && m.imageSize == |info.image| && m.imageCrc32 == Crc32(info.image)
         && m.firmwareVersion == info.header.firmwareVersion && m.appRole == role
  {
    hide Parse, Happen, Possible, IsValidPackageHeader, Ordered, NoValidBeyond, Crc32, Script, TagsOk, Tags;
    var job := JobOf(package, role, false);
    ParsedHeaderOnDevice(package);
    states := LossesSurvived(job, s, losses);
    FlashSucceeds(package, role, false, states, Script(losses));
  }

  // ----- the one loss that retries do not cover -----------------------------------------------

  /** Only leftovers of the operation are in flight, no COMPLETE among them, and the device has left
      the session that END completed. */
  ghost predicate CompleteLost(s: System) {
    && (s.host.phase.Ending? || s.host.phase.GaveUp?)
    && (forall i | 0 <= i < |s.up| :: s.up[i].frame.kind == DATA || s.up[i].frame.kind == END)
    && (forall i | 0 <= i < |s.down| :: s.down[i].frame.kind != COMPLETE)
    && (s.device.mode.Updating? ==> !s.device.mode.session.active)
  }

  /** The record that END leaves. */
  lemma EndRecordIsOurs(job: Job, sequence: u16, c: Dialogue)
    requires ValidJob(job) && UnderWay(job, c) && c.phase.Ending? && Inv(c.journal)
    ensures var newest := Read(Exchange(job, sequence, c).journal);
      RecordIsOurs(job, newest) && newest.value.state == STATE_VALID
  {
    hide Append, IsValidPackageHeader, And, Crc32, Ordered, NoValidBeyond, Read;
    assert job.info.image[..|job.info.image|] == job.info.image;
    assert EndAccepted(c.flash, c.session);
    AppendWithoutFault(c.journal, Installed(c.session));
    AppendReads(c.journal, Installed(c.session), NoFault);
  }

  /** An END that is served and whose answer is lost leads there, with the image in flash and, on a
      journal in order, a valid record of it. */
  lemma EndAnswerLost(job: Job, s: System) returns (states: seq<System>)
    requires ValidJob(job) && Good(job, s) && s.host.tries > 0 && s.host.phase.Ending?
    ensures SystemRun(job, states, LostAttempt(AnswerLost)) && states[0] == s
    ensures CompleteLost(states[4]) && HoldsImage(job, states[4].device)
    ensures Inv(s.device.journal) ==>
      var newest := Read(states[4].device.journal);
      RecordIsOurs(job, newest) && newest.value.state == STATE_VALID
  {
    hide Happen, Possible, Ours, ValidJob, Exchange, Inv, Read, RecordIsOurs;
    ExchangeGoesOn(job, s);
    if Inv(s.device.journal) {
      EndRecordIsOurs(job, SequenceOf(s.host.index), Between(s));
    }
    var s1, s2, s3' := RoundIsExchange(job, s);
    var s3, s4 := LoseAnswer(job, s, s1, s2, s3');
    states := [s, s1, s2, s3, s4];
    assert EventAt(job, states, LostAttempt(AnswerLost), 0);
    assert EventAt(job, states, LostAttempt(AnswerLost), 1);
    assert EventAt(job, states, LostAttempt(AnswerLost), 2);
    assert EventAt(job, states, LostAttempt(AnswerLost), 3);
  }

  lemma CompleteStaysLost(job: Job, s: System, e: Event)
    requires CompleteLost(s) && Possible(job, s, e)
    ensures CompleteLost(Happen(job, s, e))
  {
    hide LegalStep, Handle, Apply;
    match e {
      case Serve(fault) =>
        InactiveRefuses(s.device, s.up[0].frame, fault);
      case Other(step) =>
        OtherInactive(s.device, step);
      case _ =>
    }
  }

  lemma InactiveRefuses(d: Device, f: Frame, fault: StepFault)
    requires LegalStep(d, DoFrame(f, fault)) && (f.kind == DATA || f.kind == END)
    requires d.mode.Updating? ==> !d.mode.session.active
    ensures Handle(d.journal, d.flash, d.mode.session, f, fault)
         == Handled(d.journal, d.flash, Continue(d.mode.session, Reply(ERROR, f, [])))
    ensures Apply(d, DoFrame(f, fault)) == d
  {
    hide Written, LegalProgram, Load32;
  }

  lemma OtherInactive(d: Device, step: Step)
    requires LegalStep(d, step) && !step.DoFrame?
    requires d.mode.Updating? ==> !d.mode.session.active
    ensures Apply(d, step).mode.Updating? ==> !Apply(d, step).mode.session.active
  {
    hide Written, LegalProgram, Append, Bootable;
  }

  /** Once COMPLETE is lost, no retry brings it back: the device has rebooted, and a device without an
      active session refuses END.  The host reports a failure although the image is installed. */
  lemma {:induction false} LostCompleteIsFinal(job: Job, states: seq<System>, events: seq<Event>, k: nat)
    requires SystemRun(job, states, events) && CompleteLost(states[0]) && k <= |events|
    ensures CompleteLost(states[k]) && states[k].host.phase != Done
    decreases k
  {
    hide Possible, Happen;
    if k > 0 {
      LostCompleteIsFinal(job, states, events, k - 1);
      assert EventAt(job, states, events, k - 1);
      CompleteStaysLost(job, states[k - 1], events[k - 1]);
    }
  }
}
