/** Update sessions over whole runs of the device. */
module SessionRuns {
  import opened Words
  import opened Framing
  import opened Journal
  import opened Package
  import opened Device
  import opened DeviceTheorems
  import opened SessionTheorems

  /** Observed along a run since the last READY: the accepted blocks, one after the other; whether flash
      could take each of them when it came; and whether a BEGIN has failed meanwhile. */
  datatype Track = Track(accepted: seq<u8>, fit: bool, failedBegin: bool)

  const NEW_TRACK := Track([], true, false)

  ghost predicate FailedBegin(s: Session, f: Frame, h: Handled) {
    f.kind == BEGIN && |f.payload| == HEADER_SIZE + 4 && s.active && h.next.Continue? && h.next.reply.kind == ERROR
  }

  ghost predicate Moves(s: Session, f: Frame, h: Handled) {
    && f.kind == DATA && |f.payload| >= 4
    && h.next.Continue? && h.next.session.bytesWritten != s.bytesWritten
  }

  ghost function Noted(flash: seq<u8>, s: Session, f: Frame, h: Handled, t: Track): Track {
    if h.next.Continue? && h.next.reply.kind == READY then NEW_TRACK
    else if FailedBegin(s, f, h) then t.(failedBegin := true)
    else if Moves(s, f, h) then
      Track(t.accepted + f.payload[4..], t.fit && Programmable(flash, s.bytesWritten, f.payload[4..]), t.failedBegin)
    else t
  }

  ghost function Note(d: Device, step: Step, t: Track): Track
    requires Enabled(d, step)
  {
    if step.DoFrame? then
      var s := d.mode.session;
      Noted(d.flash, s, step.frame, Handle(d.journal, d.flash, s, step.frame, step.flashFault), t)
    else t
  }

  /** The position is that of the accepted blocks, and flash holds them exactly if it could take them. */
  ghost predicate Contents(flash: seq<u8>, s: Session, t: Track) {
    && |t.accepted| == s.bytesWritten <= |flash|
    && (flash[..s.bytesWritten] == t.accepted <==> t.fit)
  }

  ghost predicate SessionFine(flash: seq<u8>, s: Session, t: Track) {
    && s.bytesWritten % 4 == 0 && s.bytesWritten <= REGION
    && (s.active && !t.failedBegin ==> Bounded(s) && Contents(flash, s, t))
  }

  ghost predicate TrackOk(d: Device, t: Track) {
    d.mode.Updating? ==> SessionFine(d.flash, d.mode.session, t)
  }

  // ----- one step -----------------------------------------------------------------------------

  ghost predicate NotedFine(flash: seq<u8>, s: Session, f: Frame, h: Handled, t: Track) {
    h.next.Continue? ==> SessionFine(h.flash, h.next.session, Noted(flash, s, f, h, t))
  }

  lemma BeginNoted(j: Pages, flash: seq<u8>, s: Session, f: Frame, fault: StepFault, t: Track)
    requires Sized(j, flash) && FaultShape(fault) && SessionFine(flash, s, t)
    requires f.kind == BEGIN && |f.payload| == HEADER_SIZE + 4
    ensures NotedFine(flash, s, f, HandleBegin(j, flash, s, f, fault), t)
  {
    hide Append, LoadHeader, Load32, IsValidPackageHeader, EraseApplication;
    var h := HandleBegin(j, flash, s, f, fault);
    if h.next.Continue? && h.next.reply.kind == READY {
      ReadyIsClean(j, flash, s, f, fault);
    }
  }

  lemma DataNoted(j: Pages, flash: seq<u8>, s: Session, f: Frame, fault: StepFault, t: Track)
    requires Sized(j, flash) && SessionFine(flash, s, t)
    requires f.kind == DATA && s.active && |f.payload| >= 4
    ensures NotedFine(flash, s, f, HandleData(j, flash, s, f, fault), t)
  {
    hide HandleData, Bounded, Programmable;
    DataPosition(j, flash, s, f, fault);
    if !t.failedBegin {
      BoundedData(j, flash, s, f, fault, t.accepted);
    }
  }

  /** The position stays aligned and inside flash in every session. */
  lemma DataPosition(j: Pages, flash: seq<u8>, s: Session, f: Frame, fault: StepFault)
    requires Sized(j, flash) && |f.payload| >= 4 && s.bytesWritten % 4 == 0 && s.bytesWritten <= REGION
    ensures var h := HandleData(j, flash, s, f, fault);
      h.next.Continue? ==>
        && h.next.session == s.(bytesWritten := h.next.session.bytesWritten)
        && h.next.session.bytesWritten % 4 == 0 && h.next.session.bytesWritten <= REGION
        && h.next.reply.kind != READY
  {
    hide Load32, Le32, Programmed, Replaced;
  }

  lemma FrameNoted(j: Pages, flash: seq<u8>, s: Session, f: Frame, fault: StepFault, t: Track)
    requires Sized(j, flash) && FaultShape(fault) && SessionFine(flash, s, t)
    ensures NotedFine(flash, s, f, Handle(j, flash, s, f, fault), t)
  {
    hide Append, Load32, IsValidPackageHeader, HandleBegin, HandleData, EndAccepted, IsApplicationImageValid;
    if f.kind == BEGIN && |f.payload| == HEADER_SIZE + 4 {
      BeginNoted(j, flash, s, f, fault, t);
    } else if f.kind == DATA && s.active && |f.payload| >= 4 {
      DataNoted(j, flash, s, f, fault, t);
    }
  }

  lemma StepNoted(d: Device, step: Step, t: Track)
    requires LegalStep(d, step) && TrackOk(d, t)
    ensures TrackOk(Apply(d, step), Note(d, step, t))
  {
    hide Written, LegalProgram, Append, Handle, Noted, IsApplicationImageValid, Read;
    if step.DoFrame? {
      FrameNoted(d.journal, d.flash, d.mode.session, step.frame, step.flashFault, t);
    }
  }

  // ----- runs ---------------------------------------------------------------------------------

  ghost function Tracked(states: seq<Device>, steps: seq<Step>, k: nat): Track
    requires DeviceRun(states, steps) && k <= |steps|
    decreases k
  {
    if k == 0 then NEW_TRACK else
    assert DeviceStepAt(states, steps, k - 1);
    Note(states[k - 1], steps[k - 1], Tracked(states, steps, k - 1))
  }

  lemma {:induction false} RunsAreTracked(states: seq<Device>, steps: seq<Step>, k: nat)
    requires DeviceRun(states, steps) && !states[0].mode.Updating? && k <= |steps|
    ensures TrackOk(states[k], Tracked(states, steps, k))
    decreases k
  {
    hide LegalStep, Apply, Note, SessionFine;
    if k > 0 {
      RunsAreTracked(states, steps, k - 1);
      assert DeviceStepAt(states, steps, k - 1);
      StepNoted(states[k - 1], steps[k - 1], Tracked(states, steps, k - 1));
    }
  }

  /** Every session of every run in which no BEGIN has failed since READY, whatever frames came and
      whatever failed: the position is word-aligned and within the image, flash in front of it is the
      concatenation of the accepted blocks exactly if it could take each of them, the next program
      call lies inside the image, and no sequence of DATA frames can make one leave the slot. */
  lemma SessionsStayInSlot(states: seq<Device>, steps: seq<Step>, k: nat, f: Frame)
    requires DeviceRun(states, steps) && !states[0].mode.Updating? && k <= |steps|
    requires states[k].mode.Updating? && states[k].mode.session.active && !Tracked(states, steps, k).failedBegin
    ensures var d, s, t := states[k], states[k].mode.session, Tracked(states, steps, k);
      && s.bytesWritten % 4 == 0 && s.bytesWritten <= s.header.imageSize <= SLOT_SIZE
      && Contents(d.flash, s, t)
      && (ProgramCall(s, f) ==> s.bytesWritten + |f.payload| - 4 <= s.header.imageSize)
      && !CanEscape(s)
  {
    hide IsValidPackageHeader, Load32, Tracked, DeviceStepAt, Contents;
    RunsAreTracked(states, steps, k);
    var s := states[k].mode.session;
    HeaderBound(s.header);
    if ProgramCall(s, f) {
      AcceptedInsideSlot(s, s.bytesWritten, |f.payload| - 4);
    }
  }

  /** In every session of every run, failed BEGINs included, the position is aligned and inside flash: so
      `CanEscape` decides for each of them whether it can be made to leave the slot. */
  lemma PositionsAreAligned(states: seq<Device>, steps: seq<Step>, k: nat)
    requires DeviceRun(states, steps) && Initial(states[0]) && k <= |steps| && states[k].mode.Updating?
    ensures var d, s := states[k], states[k].mode.session;
      && Sized(d.journal, d.flash)
      && s.bytesWritten % 4 == 0 && s.bytesWritten <= REGION
      && ((exists sent :: Escapes(d.journal, d.flash, s, sent)) <==> CanEscape(s))
  {
    hide Tracked, DeviceStepAt, Bounded, Contents, Escapes, Initial, Ordered, NoValidBeyond, Read;
    InitialMode(states[0]);
    RunsKeepInvariant(states, steps, k);
    RunsAreTracked(states, steps, k);
    ProgramsStayInSlot(states[k].journal, states[k].flash, states[k].mode.session);
  }
}
