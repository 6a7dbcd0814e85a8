/** What boots, what an updater says of itself, and when a boot is confirmed: over every run, on the bytes
    that are in flash. */
module BootTheorems {
  import opened Words
  import opened Crc
  import opened Framing
  import opened Journal
  import opened Package
  import opened Layouts
  import opened Device
  import opened DeviceTheorems

  // ----- the boot decision --------------------------------------------------------------------

  /** A record and the bytes it describes from which the application is started: valid, fewer than three
      unconfirmed attempts, and a sound image. */
  ghost predicate Startable(m: Metadata, flash: seq<u8>) {
    m.state == 1 && m.unconfirmedBootCount < 3 && Sound(m, flash)
  }

  /** A size that fits, an initial stack pointer in RAM, an odd entry address inside the application's
      flash, and the recorded CRC-32. */
  ghost predicate Sound(m: Metadata, flash: seq<u8>) {
    && |flash| == 0x1_8000
    && 0 < m.imageSize <= 0x1_7000
    && 0x2000_0000 <= WordAt(flash, 0) < 0x2000_5000
    && WordAt(flash, 4) % 2 == 1 && 0x8000 <= WordAt(flash, 4) < 0x1_F000
    && Crc32(flash[..m.imageSize]) == m.imageCrc32
  }

  lemma BootableIsStartable(m: Metadata, flash: seq<u8>)
    requires |flash| == REGION
    ensures Bootable(m, flash) <==> Startable(m, flash)
    ensures IsApplicationImageValid(m, flash) <==> Sound(m, flash)
  {
    hide Crc32;
  }

  /** A boot that hands over had such a record; and without a fault exactly such a record is handed over
      to. */
  lemma BootDecides(d: Device, fault: Fault)
    requires DeviceInv(d) && LegalStep(d, DoBoot(fault))
    ensures Boot(d, fault).mode.Running? ==> Read(d.journal).Some? && Startable(Read(d.journal).value, d.flash)
    ensures Boot(d, NoFault).mode.Running? <==> Read(d.journal).Some? && Startable(Read(d.journal).value, d.flash)
  {
    hide Ordered, NoValidBeyond, Append, Read, Startable, IsApplicationImageValid, ImageOk, StoredOk;
    var m := Loaded(d.journal);
    BootableIsStartable(m, d.flash);
    AppendWithoutFault(d.journal, Attempt(m));
  }

  /** Over every run: an application that is started is a good one. */
  lemma StartedIsStartable(states: seq<Device>, steps: seq<Step>, k: nat)
    requires DeviceRun(states, steps) && Initial(states[0]) && k < |steps|
    requires steps[k].DoBoot? && states[k + 1].mode.Running?
    ensures Read(states[k].journal).Some? && Startable(Read(states[k].journal).value, states[k].flash)
    ensures states[k + 1].flash == states[k].flash
  {
    hide LegalStep, Initial, DeviceInv, Startable, Append, Read, IsApplicationImageValid;
    RunsKeepInvariant(states, steps, k);
    assert DeviceStepAt(states, steps, k);
    BootDecides(states[k], steps[k].fault);
  }

  // ----- HELLO --------------------------------------------------------------------------------

  /** HELLO leaves everything alone and is answered with the session's metadata, field by field. */
  lemma HelloAnswered(j: Pages, flash: seq<u8>, s: Session, sequence: u16, fault: StepFault)
    requires Sized(j, flash) && FaultShape(fault)
    ensures var h := Handle(j, flash, s, Frame(HELLO, sequence, []), fault);
      && h.journal == j && h.flash == flash && h.next.Continue? && h.next.session == s
      && h.next.reply.kind == 2 && h.next.reply.sequence == sequence
      && Describes(h.next.reply.payload, s.metadata)
  {
    hide InfoPayload;
    InfoDescribes(s.metadata);
  }

  /** Target, state, slot size, image size, version and role, one word each, low byte first. */
  ghost predicate Describes(p: seq<u8>, m: Metadata) {
    && |p| == 24
    && WordAt(p, 0) == 0x4343_314D && WordAt(p, 4) == m.state && WordAt(p, 8) == 0x1_7000
    && WordAt(p, 12) == m.imageSize && WordAt(p, 16) == m.firmwareVersion && WordAt(p, 20) == m.appRole
  }

  lemma InfoDescribes(m: Metadata)
    ensures Describes(InfoPayload(m), m)
  {
    hide InfoPayload;
    InfoFields(m);
  }

  /** After every boot that ends in the updater, HELLO tells what the newest record says, or the defaults
      if there is none: also if the attempt could not be recorded. */
  lemma HelloAfterBoot(states: seq<Device>, steps: seq<Step>, k: nat, sequence: u16, fault: StepFault)
    requires DeviceRun(states, steps) && Initial(states[0]) && k < |steps|
    requires steps[k].DoBoot? && states[k + 1].mode.Updating? && FaultShape(fault)
    ensures var d := states[k + 1];
      && Sized(d.journal, d.flash)
      && var reply := Handle(d.journal, d.flash, d.mode.session, Frame(HELLO, sequence, []), fault).next.reply;
         && reply.kind == 2 && reply.sequence == sequence
         && match Read(d.journal)
            case Some(m) => Describes(reply.payload, m)
            case None => Describes(reply.payload, Metadata(3, 0, 0, 0, 0, 0, 0, 0))
  {
    hide Initial, Describes, Handle, Ordered, NoValidBeyond, Append, Read, IsApplicationImageValid, Legal, ImageOk, StoredOk, Lead;
    RunsKeepInvariant(states, steps, k);
    RunsKeepInvariant(states, steps, k + 1);
    assert DeviceStepAt(states, steps, k);
    var d, m := states[k + 1], Loaded(states[k].journal);
    if Bootable(m, states[k].flash) {
      AppendReads(states[k].journal, Attempt(m), steps[k].fault);
    }
    HelloAnswered(d.journal, d.flash, d.mode.session, sequence, fault);
    SameDescription(d.mode.session.metadata, Loaded(d.journal));
  }

  lemma SameDescription(a: Metadata, b: Metadata)
    requires a.state == b.state && a.imageSize == b.imageSize && a.firmwareVersion == b.firmwareVersion && a.appRole == b.appRole
    ensures forall p :: Describes(p, a) <==> Describes(p, b)
  {
  }

  // ----- every frame and its answer -----------------------------------------------------------

  const WORKING := StepFault(NoFault, FlashOk)

  /** DATA that is taken for a block: behind its offset 4 to 128 bytes, a whole number of words, whose end,
      in 32-bit arithmetic, is not behind the image. */
  ghost predicate IsBlock(s: Session, f: Frame) {
    && f.kind == 5 && s.active && 8 <= |f.payload| <= 132 && |f.payload| % 4 == 0
    && (WordAt(f.payload, 0) + |f.payload| - 4) % 0x1_0000_0000 <= s.header.imageSize
  }

  ghost predicate StartsUpdate(f: Frame) {
    f.kind == 3 && |f.payload| == 36 && IsValidPackageHeader(LoadHeader(f.payload)) && WordAt(f.payload, 32) <= 2
  }

  ghost predicate EndsSession(flash: seq<u8>, s: Session, f: Frame) {
    && f.kind == 8 && s.active && f.payload == []
    && s.bytesWritten == s.header.imageSize <= |flash|
    && Crc32(flash[..s.header.imageSize]) == s.header.imageCrc32
  }

  ghost predicate SetsRole(flash: seq<u8>, s: Session, f: Frame) {
    f.kind == 11 && |f.payload| == 4 && WordAt(f.payload, 0) <= 2 && Sound(s.metadata, flash)
  }

  /** Which frame gets which answer, when nothing fails: INFO, READY, ACK, NACK and COMPLETE exactly for
      the frames described above, and ERROR for every other one.  An ERROR changes nothing but, for a
      BEGIN of the right length, the header and the role the session remembers. */
  lemma AnswerTable(j: Pages, flash: seq<u8>, s: Session, f: Frame)
    requires Sized(j, flash)
    ensures var h := Handle(j, flash, s, f, WORKING);
      && (h.next.Continue? || h.next.Reboot?) && h.next.reply.sequence == f.sequence
      && h.next.reply.kind ==
           (if f.kind == 1 && f.payload == [] then 2
            else if StartsUpdate(f) then 4
            else if IsBlock(s, f) then if WordAt(f.payload, 0) <= s.bytesWritten then 6 else 7
            else if EndsSession(flash, s, f) || SetsRole(flash, s, f) then 9
            else 10)
      && (h.next.Reboot? <==> h.next.reply.kind == 9)
      && (h.next.reply.kind == 10 ==>
            && h.journal == j && h.flash == flash && h.next.reply.payload == []
            && h.next.session == s.(header := h.next.session.header, role := h.next.session.role)
            && (f.kind != 3 || |f.payload| != 36 ==> h.next.session == s))
  {
    hide Append, LoadHeader, IsValidPackageHeader, Crc32, IsApplicationImageValid, Sound, InfoPayload, Le32, EraseApplication, Programmed;
    BootableIsStartable(s.metadata, flash);
    AppendWithoutFault(j, DEFAULT);
    AppendWithoutFault(j, Installed(s));
    if |f.payload| == 4 {
      AppendWithoutFault(j, s.metadata.(state := STATE_VALID, appRole := Load32(f.payload, 0)));
    }
  }

  // ----- readiness ----------------------------------------------------------------------------

  /** Which subsystems have reported since the last boot. */
  datatype Reports = Reports(rf: bool, cli: bool)

  function Report(r: Reports, step: Step): Reports {
    match step
    case DoBoot(_) => Reports(false, false)
    case DoReady(true, _) => r.(rf := true)
    case DoReady(false, _) => r.(cli := true)
    case _ => r
  }

  function Reported(steps: seq<Step>, k: nat): Reports
    requires k <= |steps|
    decreases k
  {
    if k == 0 then Reports(false, false) else Report(Reported(steps, k - 1), steps[k - 1])
  }

  ghost predicate FlagsOk(d: Device, r: Reports) {
    d.mode.Running? ==> d.mode.app.rfReady == r.rf && d.mode.app.cliReady == r.cli
  }

  lemma StepReports(d: Device, step: Step, r: Reports)
    requires LegalStep(d, step) && FlagsOk(d, r)
    ensures FlagsOk(Apply(d, step), Report(r, step))
    ensures step.DoReady? && Read(Apply(d, step).journal) != Read(d.journal) ==> Report(r, step) == Reports(true, true)
  {
    hide Written, LegalProgram, Append, Read, Handle, IsApplicationImageValid;
  }

  lemma {:induction false} RunsReport(states: seq<Device>, steps: seq<Step>, k: nat)
    requires DeviceRun(states, steps) && !states[0].mode.Running? && k <= |steps|
    ensures FlagsOk(states[k], Reported(steps, k))
    decreases k
  {
    hide LegalStep, Apply;
    if k > 0 {
      RunsReport(states, steps, k - 1);
      assert DeviceStepAt(states, steps, k - 1);
      StepReports(states[k - 1], steps[k - 1], Reported(steps, k - 1));
    }
  }

  /** Over every run: a report changes the record only once both subsystems have reported since the boot. */
  lemma ConfirmedAfterBoth(states: seq<Device>, steps: seq<Step>, k: nat)
    requires DeviceRun(states, steps) && !states[0].mode.Running? && k < |steps| && steps[k].DoReady?
    ensures Read(states[k + 1].journal) != Read(states[k].journal) ==> Reported(steps, k + 1) == Reports(true, true)
  {
    hide LegalStep, Apply, Read;
    RunsReport(states, steps, k);
    assert DeviceStepAt(states, steps, k);
    StepReports(states[k], steps[k], Reported(steps, k));
  }

  /** The application has not tried to confirm its attempt yet. */
  ghost predicate Unconfirmed(d: Device) {
    && d.mode.Running? && d.mode.app.armed && !d.mode.app.confirmAttempted
    && Confirmable(d.journal, d.mode.app.attemptId)
  }

  /** And without a fault the report that makes them both confirms the attempt, and no other does. */
  lemma BothConfirm(states: seq<Device>, steps: seq<Step>, k: nat)
    requires DeviceRun(states, steps) && Initial(states[0]) && k < |steps|
    requires steps[k].DoReady? && steps[k].fault == NoFault && Unconfirmed(states[k])
    ensures var confirmed := Confirmed(Read(states[k].journal).value, states[k].mode.app.attemptId);
      Read(states[k + 1].journal) == Some(confirmed) <==> Reported(steps, k + 1) == Reports(true, true)
  {
    hide LegalStep, Apply, Read, Initial, DeviceInv, Confirmable, MarkReady;
    InitialMode(states[0]);
    RunsKeepInvariant(states, steps, k);
    RunsReport(states, steps, k);
    assert DeviceStepAt(states, steps, k);
    ReadyConfirms(states[k], steps[k].rf);
  }

  lemma ReadyConfirms(d: Device, rf: bool)
    requires DeviceInv(d) && LegalStep(d, DoReady(rf, NoFault))
    requires Unconfirmed(d)
    ensures Apply(d, DoReady(rf, NoFault)) == MarkReady(d, rf, NoFault)
    ensures Read(MarkReady(d, rf, NoFault).journal) == Some(Confirmed(Read(d.journal).value, d.mode.app.attemptId)) <==>
      (rf || d.mode.app.rfReady) && (!rf || d.mode.app.cliReady)
  {
    hide Ordered, NoValidBeyond, Legal, Append, Read, ImageOk, StoredOk, Lead;
    var c := Confirmed(Read(d.journal).value, d.mode.app.attemptId);
    AppendWithoutFault(d.journal, c);
    AppendReads(d.journal, c, NoFault);
  }

  /** The handoff is spent only by a confirmation that is on record; without a fault by each one; and an
      application that has tried once does not try again. */
  lemma HandoffSpent(d: Device, rf: bool, fault: Fault)
    requires DeviceInv(d) && LegalStep(d, DoReady(rf, fault)) && d.mode.app.armed
    ensures var d' := MarkReady(d, rf, fault);
      && (d'.mode.Running? && !d'.mode.app.armed ==>
            Read(d.journal).Some? && Read(d'.journal) == Some(Confirmed(Read(d.journal).value, d.mode.app.attemptId)))
      && (d'.mode.Running? && fault.NoFault? && Read(d'.journal) != Read(d.journal) ==> !d'.mode.app.armed)
      && (d'.mode.Running? && d'.journal != d.journal ==> d'.mode.app.confirmAttempted)
      && (d.mode.app.confirmAttempted ==> d'.journal == d.journal && d'.mode.Running? && d'.mode.app.confirmAttempted)
  {
    hide Ordered, NoValidBeyond, Legal, Append, Read, ImageOk, StoredOk, Lead;
    if Confirmable(d.journal, d.mode.app.attemptId) {
      var c := Confirmed(Read(d.journal).value, d.mode.app.attemptId);
      AppendWithoutFault(d.journal, c);
      AppendReads(d.journal, c, fault);
    }
  }

  // ----- failures -----------------------------------------------------------------------------

  /** An update request whose record is reported as failed leaves the application running. */
  lemma RequestThatFails(d: Device, fault: Fault)
    requires DeviceInv(d) && LegalStep(d, DoRequest(fault))
    ensures RequestUpdate(d, fault).flash == d.flash
    ensures Append(d.journal, Requested(d.journal), fault).1 == Failed <==> RequestUpdate(d, fault).mode == d.mode
  {
    hide Append, Read;
  }

  /** A BEGIN of the right length that is answered ERROR: the session remembers its header and role, and
      goes on as it was, with the default metadata if the header and the role were good. */
  lemma BeginThatFails(j: Pages, flash: seq<u8>, s: Session, f: Frame, fault: StepFault)
    requires Sized(j, flash) && FaultShape(fault) && f.kind == BEGIN && |f.payload| == 36
    requires var next := Handle(j, flash, s, f, fault).next; next.Continue? && next.reply.kind == ERROR
    ensures var s' := Handle(j, flash, s, f, fault).next.session;
      && s'.header == LoadHeader(f.payload) && s'.role == WordAt(f.payload, 32)
      && s'.bytesWritten == s.bytesWritten && s'.active == s.active
      && s'.metadata == (if StartsUpdate(f) then Metadata(3, 0, 0, 0, 0, 0, 0, 0) else s.metadata)
  {
    hide Append, LoadHeader, IsValidPackageHeader, EraseApplication;
  }
}
