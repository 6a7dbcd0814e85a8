/** When the host's flash operation returns, the device holds what it was given. */
module LinkTheorems {
  import opened Words
  import opened Crc
  import opened Framing
  import opened Journal
  import opened Package
  import opened Device
  import opened DeviceTheorems
  import opened SessionTheorems
  import opened Link

  // ----- what the device may be doing ---------------------------------------------------------

  /** The session works on this job. */
  ghost predicate Ours(job: Job, flash: seq<u8>, s: Session, dirty: bool) {
    && s.header == job.info.header && s.role == job.role
    && IsValidPackageHeader(s.header)
    && s.bytesWritten <= |job.info.image|
    && (!dirty <==> Toward(flash, job.info.image, s.bytesWritten))
  }

  ghost predicate ActiveIsOurs(job: Job, d: Device, dirty: bool) {
    d.mode.Updating? && d.mode.session.active ==> Ours(job, d.flash, d.mode.session, dirty)
  }

  ghost predicate RecordIsOurs(job: Job, newest: Option<Metadata>) {
    && newest.Some?
    && (newest.value.state == STATE_VALID || (job.requests && newest.value.state == STATE_REQUESTED))
    && newest.value.imageSize == job.info.header.imageSize
    && newest.value.imageCrc32 == job.info.header.imageCrc32
    && newest.value.firmwareVersion == job.info.header.firmwareVersion
    && newest.value.appRole == job.role
  }

  /** The job is done: recorded, and nothing is left that could undo it. */
  ghost predicate Committed(job: Job, d: Device, dirty: bool) {
    && RecordIsOurs(job, Read(d.journal))
    && !(d.mode.Updating? && d.mode.session.active)
    && |job.info.image| <= |d.flash|
    && Crc32(d.flash[..|job.info.image|]) == job.info.header.imageCrc32
    && (!dirty <==> d.flash[..|job.info.image|] == job.info.image)
  }

  ghost predicate JobOk(job: Job) {
    && |job.info.image| == job.info.header.imageSize
    && 0 < |job.info.image| <= SLOT_SIZE
  }

  // ----- frames the device can receive --------------------------------------------------------

  ghost predicate BeginFrame(job: Job, f: Frame) {
    f.kind == BEGIN && f.payload == job.info.header.Bytes() + Le32(job.role)
  }

  ghost predicate DataFrame(job: Job, f: Frame) {
    && f.kind == DATA
    && exists offset: u32 :: offset < |job.info.image| && f.payload == Le32(offset) + Chunk(job.info.image, offset)
  }

  lemma BeginFields(job: Job, f: Frame)
    requires BeginFrame(job, f)
    ensures |f.payload| == HEADER_SIZE + 4
    ensures LoadHeader(f.payload) == job.info.header && Load32(f.payload, HEADER_SIZE) == job.role
  {
    hide Load32, Le32, LoadHeader;
    HeaderRoundTrip(job.info.header, Le32(job.role));
    assert f.payload[HEADER_SIZE..HEADER_SIZE + 4] == Le32(job.role);
    LoadStored32(f.payload, HEADER_SIZE, job.role);
  }

  lemma DataFields(job: Job, f: Frame) returns (offset: u32)
    requires DataFrame(job, f)
    ensures offset < |job.info.image| && |f.payload| >= 4
    ensures Load32(f.payload, 0) == offset && f.payload[4..] == Chunk(job.info.image, offset)
  {
    hide Load32, Le32;
    offset :| offset < |job.info.image| && f.payload == Le32(offset) + Chunk(job.info.image, offset);
    assert f.payload[0..4] == Le32(offset);
    LoadStored32(f.payload, 0, offset);
  }

  // ----- one frame of the job -----------------------------------------------------------------

  ghost predicate HandledOurs(job: Job, h: Handled, dirty: bool) {
    ActiveIsOurs(job, Device(h.journal, h.flash, NextMode(h.next)), dirty)
  }

  lemma ErasedIsToward(flash: seq<u8>, image: seq<u8>)
    requires |image| <= SLOT_SIZE <= |flash| && flash[..SLOT_SIZE] == ErasedBytes(SLOT_SIZE)
    ensures Toward(flash, image, 0)
  {
    hide And;
    forall i | 0 <= i < |image|
      ensures And(flash[i], image[i]) == image[i]
    {
      assert flash[i] == flash[..SLOT_SIZE][i] == 0xFF;
      ErasedIsProgrammable(image[i]);
    }
  }

  /** BEGIN of the job: READY starts the session afresh, a failure leaves a session of ours ours. */
  lemma BeginServed(job: Job, d: Device, f: Frame, fault: StepFault, dirty: bool)
    requires JobOk(job) && BeginFrame(job, f) && |d.flash| == REGION
    requires LegalStep(d, DoFrame(f, fault))
    ensures var h := Handle(d.journal, d.flash, d.mode.session, f, fault);
      && (h.next.Continue? && h.next.reply.kind == READY ==> HandledOurs(job, h, false))
      && (ActiveIsOurs(job, d, dirty) ==> HandledOurs(job, h, Astray(job, dirty, f, d.flash, h)))
      && (h.next.Continue? ==> h.next.reply.kind == READY || h.next.reply.kind == ERROR)
      && !h.next.Reboot?
  {
    hide Append, Read, LoadHeader, Load32, IsValidPackageHeader, Le32, Toward, EraseApplication;
    BeginFields(job, f);
    var s := d.mode.session;
    var h := HandleBegin(d.journal, d.flash, s, f, fault);
    if h.next.Continue? && h.next.reply.kind == READY {
      ReadyIsClean(d.journal, d.flash, s, f, fault);
      ErasedIsToward(h.flash, job.info.image);
    }
  }

  lemma ChunkProgrammable(flash: seq<u8>, image: seq<u8>, offset: nat)
    requires Toward(flash, image, offset) && offset < |image|
    ensures Programmable(flash, offset, Chunk(image, offset))
  {
    hide And;
  }

  lemma TowardProgrammed(flash: seq<u8>, image: seq<u8>, offset: nat)
    requires Toward(flash, image, offset) && offset < |image|
    ensures var data := Chunk(image, offset);
      && offset + |data| <= |flash|
      && Toward(Programmed(flash, offset, data), image, offset + |data|)
  {
    hide And;
    var data := Chunk(image, offset);
    var n, m := offset, offset + |data|;
    var flash' := Programmed(flash, n, data);
    ChunkProgrammable(flash, image, offset);
    ProgrammedIsData(flash, n, data);
    assert flash'[..m] == flash'[..n] + flash'[n..m];
    assert image[..m] == image[..n] + data;
    forall i | 0 <= i < |image|
      ensures And(flash'[i], image[i]) == image[i]
    {
      if i < m {
        assert flash'[i] == flash'[..m][i] == image[..m][i];
        AndSelf(image[i]);
      } else {
        assert flash'[i] == flash'[m..][i - m] == flash[m..][i - m];
      }
    }
  }

  lemma TowardStopped(flash: seq<u8>, image: seq<u8>, offset: nat, left: seq<u8>)
    requires Toward(flash, image, offset) && offset < |image|
    requires PartlyDone(flash[offset..offset + |Chunk(image, offset)|], Chunk(image, offset), left)
    ensures Toward(Replaced(flash, offset, left), image, offset)
  {
    hide And;
    var data, m := Chunk(image, offset), offset + |left|;
    var flash' := Replaced(flash, offset, left);
    assert flash'[..offset] == flash[..offset];
    forall i | 0 <= i < |image|
      ensures And(flash'[i], image[i]) == image[i]
    {
      if offset <= i < m {
        var k := i - offset;
        assert flash'[i] == left[k] && image[i] == data[k];
        assert flash[offset..offset + |data|][k] == flash[i];
        assert And(flash[i], image[i]) == image[i];
      } else {
        assert flash'[i] == flash[i];
      }
    }
  }

  /** Clearing bits behind the written part never leads back on the way to the image. */
  lemma TowardBefore(flash: seq<u8>, flash': seq<u8>, image: seq<u8>, written: nat, written': nat)
    requires Toward(flash', image, written') && written <= written' && |flash'| == |flash|
    requires flash'[..written] == flash[..written]
    requires forall i | 0 <= i < |image| :: And(flash'[i], flash[i]) == flash'[i]
    ensures Toward(flash, image, written)
  {
    hide And;
    assert flash'[..written] == flash'[..written'][..written];
    assert image[..written] == image[..written'][..written];
    forall i | 0 <= i < |image|
      ensures And(flash[i], image[i]) == image[i]
    {
      AndWithin(flash'[i], flash[i], image[i]);
    }
  }

  /** A block written, or interrupted: flash is on its way afterwards exactly if it was before. */
  lemma ProgrammedExactly(flash: seq<u8>, image: seq<u8>, offset: nat)
    requires offset < |image| <= |flash|
    ensures var data := Chunk(image, offset);
      && offset + |data| <= |flash|
      && (Toward(Programmed(flash, offset, data), image, offset + |data|) <==> Toward(flash, image, offset))
  {
    hide And, Toward;
    var data := Chunk(image, offset);
    var flash' := Programmed(flash, offset, data);
    if Toward(flash, image, offset) {
      TowardProgrammed(flash, image, offset);
    } else if Toward(flash', image, offset + |data|) {
      forall i | 0 <= i < |image|
        ensures And(flash'[i], flash[i]) == flash'[i]
      {
        AndSelf(flash[i]);
        if offset <= i < offset + |data| {
          AndBelow(flash[i], data[i - offset]);
        }
      }
      assert flash'[..offset] == flash[..offset];
      TowardBefore(flash, flash', image, offset, offset + |data|);
    }
  }

  lemma StoppedExactly(flash: seq<u8>, image: seq<u8>, offset: nat, left: seq<u8>)
    requires offset < |image| <= |flash|
    requires PartlyDone(flash[offset..offset + |Chunk(image, offset)|], Chunk(image, offset), left)
    ensures Toward(Replaced(flash, offset, left), image, offset) <==> Toward(flash, image, offset)
  {
    hide And, Toward;
    var flash' := Replaced(flash, offset, left);
    if Toward(flash, image, offset) {
      TowardStopped(flash, image, offset, left);
    } else if Toward(flash', image, offset) {
      forall i | 0 <= i < |image|
        ensures And(flash'[i], flash[i]) == flash'[i]
      {
        AndSelf(flash[i]);
        if offset <= i < offset + |left| {
          assert flash[offset..offset + |left|][i - offset] == flash[i];
        }
      }
      assert flash'[..offset] == flash[..offset];
      TowardBefore(flash, flash', image, offset, offset);
    }
  }

  /** A complete session is on its way exactly if the image is there. */
  lemma TowardAtEnd(flash: seq<u8>, image: seq<u8>)
    requires |image| <= |flash|
    ensures Toward(flash, image, |image|) <==> flash[..|image|] == image
  {
    hide And;
    assert image[..|image|] == image;
    if flash[..|image|] == image {
      forall i | 0 <= i < |image|
        ensures And(flash[i], image[i]) == image[i]
      {
        assert flash[..|image|][i] == flash[i];
        AndSelf(image[i]);
      }
    }
  }

  /** DATA of the job in a session of ours: written or not, the session stays ours. */
  lemma DataServed(job: Job, d: Device, f: Frame, fault: StepFault, dirty: bool)
    requires JobOk(job) && DataFrame(job, f) && |d.flash| == REGION
    requires LegalStep(d, DoFrame(f, fault)) && ActiveIsOurs(job, d, dirty)
    ensures var h := Handle(d.journal, d.flash, d.mode.session, f, fault);
      && HandledOurs(job, h, dirty)
      && (h.next.Continue? ==> h.next.reply.kind != READY && h.next.reply.kind != COMPLETE)
      && !h.next.Reboot? && h.journal == d.journal
      && (!d.mode.session.active ==> h.flash == d.flash && h.next.Continue? && h.next.session == d.mode.session)
  {
    hide Read, Load32, IsValidPackageHeader, Le32, Toward, Programmed, Replaced, PartlyDone, DataAccepted, Legal;
    var offset := DataFields(job, f);
    var s, image := d.mode.session, job.info.image;
    if s.active && offset == s.bytesWritten {
      ProgrammedExactly(d.flash, image, offset);
      var fl := fault.flash;
      if fl.ProgramStops? && |fl.left| == |Chunk(image, offset)| {
        StoppedExactly(d.flash, image, offset, fl.left);
      }
    }
  }

  /** END: only a complete session of ours is committed, and then the job is done. */
  lemma EndServed(job: Job, d: Device, f: Frame, fault: StepFault, dirty: bool)
    requires JobOk(job) && f.kind == END && f.payload == [] && DeviceInv(d)
    requires LegalStep(d, DoFrame(f, fault)) && ActiveIsOurs(job, d, dirty)
    ensures var h := Handle(d.journal, d.flash, d.mode.session, f, fault);
      && HandledOurs(job, h, dirty)
      && (h.next.Continue? ==> h.next.reply.kind == ERROR)
      && (h.next.Reboot? ==> Committed(job, Device(h.journal, h.flash, Off), dirty))
      && (!d.mode.session.active ==>
            h.journal == d.journal && h.flash == d.flash && h.next.Continue? && h.next.session == d.mode.session)
  {
    hide Ordered, NoValidBeyond, Append, Read, IsValidPackageHeader, Toward, Legal, Crc32;
    var s := d.mode.session;
    if s.active && EndAccepted(d.flash, s) {
      AppendReads(d.journal, Installed(s), fault.journal);
      TowardAtEnd(d.flash, job.info.image);
    }
  }

  lemma HelloServed(job: Job, d: Device, f: Frame, fault: StepFault)
    requires f.kind == HELLO && f.payload == [] && LegalStep(d, DoFrame(f, fault))
    ensures var h := Handle(d.journal, d.flash, d.mode.session, f, fault);
      && h.journal == d.journal && h.flash == d.flash
      && h.next.Continue? && h.next.session == d.mode.session && h.next.reply.kind == INFO
  {
  }

  // ----- steps that are not frames ------------------------------------------------------------

  lemma OtherOurs(job: Job, d: Device, step: Step, dirty: bool)
    requires !step.DoFrame? && LegalStep(d, step) && ActiveIsOurs(job, d, dirty)
    ensures ActiveIsOurs(job, Apply(d, step), dirty)
  {
    hide Append, Read, Ours, IsApplicationImageValid;
  }

  lemma OtherMode(d: Device, step: Step)
    requires !step.DoFrame? && LegalStep(d, step) && !(d.mode.Updating? && d.mode.session.active)
    ensures var d' := Apply(d, step);
      && d'.flash == d.flash
      && !(d'.mode.Updating? && d'.mode.session.active)
  {
    hide Append, Read, IsApplicationImageValid, Legal, Written;
  }

  lemma OtherRecord(job: Job, d: Device, step: Step)
    requires DeviceInv(d) && !step.DoFrame? && (step.DoRequest? ==> job.requests) && LegalStep(d, step)
    requires RecordIsOurs(job, Read(d.journal))
    ensures RecordIsOurs(job, Read(Apply(d, step).journal))
  {
    hide Ordered, NoValidBeyond, Append, Read, Legal, IsApplicationImageValid, ImageOk, StoredOk;
    var w := Written(d, step);
    if w.Some? {
      AppendReads(d.journal, w.value, JournalFault(step));
    }
  }

  /** Boots, confirmations and requests change the counters and the state of a record, not what it says
      about the image. */
  lemma OtherCommitted(job: Job, d: Device, step: Step, dirty: bool)
    requires DeviceInv(d) && !step.DoFrame? && (step.DoRequest? ==> job.requests) && LegalStep(d, step)
    requires Committed(job, d, dirty)
    ensures Committed(job, Apply(d, step), dirty)
  {
    hide Inv, Read, LegalStep, Apply, Crc32, RecordIsOurs;
    OtherMode(d, step);
    OtherRecord(job, d, step);
  }

  // ----- the invariant of the system ----------------------------------------------------------

  ghost function Tags(s: System): seq<int> {
    seq(|s.down| + |s.up|, i requires 0 <= i < |s.down| + |s.up| =>
      if i < |s.down| then s.down[i].tag else s.up[i - |s.down|].tag)
  }

  /** Frames in flight belong to the current request or to the one before, in that order. */
  ghost predicate TagsOk(tags: seq<int>, index: nat) {
    && (forall i | 0 <= i < |tags| :: tags[i] == index || tags[i] + 1 == index)
    && (forall i, j | 0 <= i < j < |tags| :: tags[i] <= tags[j])
  }

  ghost predicate CurrentOk(job: Job, phase: Phase, f: Frame) {
    match phase
    case Beginning => BeginFrame(job, f)
    case Sending(_) => DataFrame(job, f)
    case Ending => f.kind == END && f.payload == []
    case Done => f.kind == END && f.payload == []
    case GaveUp => true
  }

  ghost predicate PreviousOk(job: Job, phase: Phase, f: Frame) {
    match phase
    case Beginning => f.kind == HELLO && f.payload == []
    case Sending(_) => BeginFrame(job, f) || DataFrame(job, f)
    case Ending => DataFrame(job, f)
    case Done => DataFrame(job, f)
    case GaveUp => true
  }

  ghost predicate UpOk(job: Job, h: Host, m: Msg) {
    && m.frame.sequence == SequenceOf(m.tag)
    && (m.tag == h.index ==> CurrentOk(job, h.phase, m.frame))
    && (m.tag + 1 == h.index ==> PreviousOk(job, h.phase, m.frame))
  }

  /** A response to the current request means what it says. */
  ghost predicate DownOk(job: Job, h: Host, d: Device, dirty: bool, m: Msg) {
    && m.frame.sequence == SequenceOf(m.tag)
    && (m.tag == h.index && h.phase.Beginning? && m.frame.kind == READY ==> ActiveIsOurs(job, d, dirty))
    && (m.tag == h.index && h.phase.Ending? && m.frame.kind == COMPLETE ==> Committed(job, d, dirty))
  }

  ghost predicate PhaseMeans(job: Job, h: Host, d: Device, dirty: bool) {
    && (h.phase.Sending? || h.phase.Ending? ==> ActiveIsOurs(job, d, dirty))
    && (h.phase.Done? ==> Committed(job, d, dirty))
  }

  ghost predicate SystemInv(job: Job, s: System) {
    && JobOk(job)
    && DeviceInv(s.device)
    && TagsOk(Tags(s), s.host.index)
    && PhaseOk(job, s.host.phase)
    && (forall i | 0 <= i < |s.up| :: UpOk(job, s.host, s.up[i]))
    && (forall i | 0 <= i < |s.down| :: DownOk(job, s.host, s.device, s.dirty, s.down[i]))
    && PhaseMeans(job, s.host, s.device, s.dirty)
  }

  /** The same facts about the device survive a step, whatever they are. */
  ghost predicate Survives(job: Job, h: Host, d: Device, dirty: bool, d': Device, dirty': bool) {
    && (h.phase.Beginning? || h.phase.Sending? || h.phase.Ending? ==>
          (ActiveIsOurs(job, d, dirty) ==> ActiveIsOurs(job, d', dirty')))
    && (h.phase.Ending? || h.phase.Done? ==>
          (Committed(job, d, dirty) ==> Committed(job, d', dirty')))
  }

  lemma SurvivesKeeps(job: Job, s: System, s': System)
    requires SystemInv(job, s) && DeviceInv(s'.device)
    requires s'.host == s.host && Survives(job, s.host, s.device, s.dirty, s'.device, s'.dirty)
    requires TagsOk(Tags(s'), s.host.index)
    requires forall i | 0 <= i < |s'.up| :: UpOk(job, s.host, s'.up[i])
    requires forall i | 0 <= i < |s'.down| ::
      DownOk(job, s.host, s.device, s.dirty, s'.down[i]) || DownOk(job, s.host, s'.device, s'.dirty, s'.down[i])
    ensures SystemInv(job, s')
  {
    hide ActiveIsOurs, Committed, DeviceInv, Tags, TagsOk, UpOk;
    forall i | 0 <= i < |s'.down|
      ensures DownOk(job, s'.host, s'.device, s'.dirty, s'.down[i])
    {
    }
  }

  lemma OtherKeeps(job: Job, s: System, step: Step)
    requires SystemInv(job, s) && Possible(job, s, Event.Other(step))
    ensures SystemInv(job, Happen(job, s, Event.Other(step)))
  {
    hide ActiveIsOurs, Committed, DeviceInv, TagsOk, UpOk, DownOk, PhaseMeans, LegalStep, Apply;
    var s' := Happen(job, s, Event.Other(step));
    StepKeeps(s.device, step);
    if ActiveIsOurs(job, s.device, s.dirty) {
      OtherOurs(job, s.device, step, s.dirty);
    }
    if Committed(job, s.device, s.dirty) {
      OtherCommitted(job, s.device, step, s.dirty);
    }
    assert Tags(s') == Tags(s);
    SurvivesKeeps(job, s, s');
  }

  // ----- a frame is served --------------------------------------------------------------------

  lemma CommittedIsOurs(job: Job, d: Device, dirty: bool)
    requires Committed(job, d, dirty)
    ensures ActiveIsOurs(job, d, dirty)
  {
  }

  /** The device after serving one frame, and what its reply stands for. */
  ghost predicate ServedOk(job: Job, h: Host, d: Device, dirty: bool, r: Handled, dirty': bool) {
    var d' := Device(r.journal, r.flash, NextMode(r.next));
    && Survives(job, h, d, dirty, d', dirty')
    && (r.next.Continue? && r.next.reply.kind == READY && h.phase.Beginning? ==> ActiveIsOurs(job, d', dirty'))
    && (r.next.Continue? ==> r.next.reply.kind != COMPLETE || !h.phase.Ending?)
    && (r.next.Reboot? && h.phase.Ending? ==> Committed(job, d', dirty'))
    && (r.next.Reboot? ==> h.phase.Ending? || h.phase.GaveUp?)
  }

  ghost function HandledBy(d: Device, f: Frame, fault: StepFault): Handled
    requires LegalStep(d, DoFrame(f, fault))
  {
    Handle(d.journal, d.flash, d.mode.session, f, fault)
  }

  ghost predicate ServedSo(job: Job, h: Host, d: Device, dirty: bool, f: Frame, fault: StepFault)
    requires LegalStep(d, DoFrame(f, fault))
  {
    var r := HandledBy(d, f, fault);
    ServedOk(job, h, d, dirty, r, Astray(job, dirty, f, d.flash, r))
  }

  lemma ServeBeginning(job: Job, h: Host, d: Device, dirty: bool, f: Frame, fault: StepFault)
    requires JobOk(job) && DeviceInv(d) && LegalStep(d, DoFrame(f, fault)) && h.phase.Beginning?
    requires CurrentOk(job, h.phase, f) || PreviousOk(job, h.phase, f)
    ensures ServedSo(job, h, d, dirty, f, fault)
  {
    hide Ours, Committed, Handle, Inv, Read, Written, LegalProgram;
    if f.kind == BEGIN {
      BeginServed(job, d, f, fault, dirty);
    } else {
      HelloServed(job, d, f, fault);
    }
  }

  lemma ServeSending(job: Job, h: Host, d: Device, dirty: bool, f: Frame, fault: StepFault)
    requires JobOk(job) && DeviceInv(d) && LegalStep(d, DoFrame(f, fault)) && h.phase.Sending?
    requires ActiveIsOurs(job, d, dirty)
    requires CurrentOk(job, h.phase, f) || PreviousOk(job, h.phase, f)
    ensures ServedSo(job, h, d, dirty, f, fault)
  {
    hide Ours, Committed, Handle, Inv, Read, Written, LegalProgram;
    if f.kind == BEGIN {
      BeginServed(job, d, f, fault, dirty);
    } else {
      DataServed(job, d, f, fault, dirty);
    }
  }

  lemma ServeEnding(job: Job, h: Host, d: Device, dirty: bool, f: Frame, fault: StepFault)
    requires JobOk(job) && DeviceInv(d) && LegalStep(d, DoFrame(f, fault)) && (h.phase.Ending? || h.phase.Done?)
    requires ActiveIsOurs(job, d, dirty)
    requires h.phase.Done? ==> Committed(job, d, dirty)
    requires CurrentOk(job, h.phase, f) || PreviousOk(job, h.phase, f)
    ensures ServedSo(job, h, d, dirty, f, fault)
  {
    hide Ours, Handle, Inv, Read, Written, LegalProgram, RecordIsOurs;
    if f.kind == END {
      EndServed(job, d, f, fault, dirty);
    } else {
      DataServed(job, d, f, fault, dirty);
    }
  }

  lemma ServeAny(job: Job, s: System, fault: StepFault)
    requires SystemInv(job, s) && Possible(job, s, Serve(fault))
    ensures ServedSo(job, s.host, s.device, s.dirty, s.up[0].frame, fault) || s.host.phase.GaveUp?
  {
    hide ActiveIsOurs, Committed, DeviceInv, CurrentOk, PreviousOk, Written, LegalProgram, ServedOk, DownOk, JobOk;
    var d, f := s.device, s.up[0].frame;
    assert UpOk(job, s.host, s.up[0]);
    FrontTag(s);
    match s.host.phase {
      case Beginning => ServeBeginning(job, s.host, d, s.dirty, f, fault);
      case Sending(_) => ServeSending(job, s.host, d, s.dirty, f, fault);
      case Ending => ServeEnding(job, s.host, d, s.dirty, f, fault);
      case Done =>
        CommittedIsOurs(job, d, s.dirty);
        ServeEnding(job, s.host, d, s.dirty, f, fault);
      case GaveUp =>
    }
  }

  lemma FrontTag(s: System)
    requires s.up != [] && TagsOk(Tags(s), s.host.index)
    ensures s.up[0].tag == s.host.index || s.up[0].tag + 1 == s.host.index
  {
    assert Tags(s)[|s.down|] == s.up[0].tag;
  }

  /** Losing a frame, or a request without an answer, takes one tag out of the order. */
  ghost predicate Dropped(t: seq<int>, t': seq<int>, k: nat) {
    && |t'| + 1 == |t|
    && k < |t|
    && (forall i | 0 <= i < k :: t'[i] == t[i])
    && (forall i | k <= i < |t'| :: t'[i] == t[i + 1])
  }

  lemma DroppedTags(t: seq<int>, t': seq<int>, k: nat, index: nat)
    requires TagsOk(t, index) && Dropped(t, t', k)
    ensures TagsOk(t', index)
  {
    forall i | 0 <= i < |t'|
      ensures t'[i] == index || t'[i] + 1 == index
    {
      assert t'[i] == t[if i < k then i else i + 1];
    }
    forall i, j | 0 <= i < j < |t'|
      ensures t'[i] <= t'[j]
    {
      var a, b := if i < k then i else i + 1, if j < k then j else j + 1;
      assert t'[i] == t[a] && t'[j] == t[b];
    }
  }

  /** Answering a frame in order leaves the order of requests in flight as it was. */
  lemma ServeTags(s: System, s': System, m: Msg, replies: seq<Msg>)
    requires TagsOk(Tags(s), s.host.index) && s.up != [] && s.up[0] == m
    requires s'.host == s.host && s'.up == s.up[1..] && s'.down == s.down + replies
    requires replies == [] || (|replies| == 1 && replies[0].tag == m.tag)
    ensures TagsOk(Tags(s'), s.host.index)
  {
    hide TagsOk;
    var t, t', n := Tags(s), Tags(s'), |s.down|;
    if replies == [] {
      assert s'.down == s.down;
      assert Dropped(t, t', n);
      DroppedTags(t, t', n, s.host.index);
    } else {
      forall i | 0 <= i < |t|
        ensures t'[i] == t[i]
      {
        if i < n {
          assert s'.down[i] == s.down[i];
        }
      }
      assert t' == t;
    }
  }

  lemma ServeKeeps(job: Job, s: System, fault: StepFault)
    requires SystemInv(job, s) && Possible(job, s, Serve(fault))
    ensures SystemInv(job, Served(job, s, fault))
  {
    hide ActiveIsOurs, Committed, DeviceInv, TagsOk, Written, LegalProgram, Handle, PhaseMeans, Tags;
    var d, m := s.device, s.up[0];
    var r := Handle(d.journal, d.flash, d.mode.session, m.frame, fault);
    var s' := Served(job, s, fault);
    ReplySequence(d, m.frame, fault);
    StepKeeps(d, DoFrame(m.frame, fault));
    ServeAny(job, s, fault);
    ServeTags(s, s', m, s'.down[|s.down|..]);
    assert UpOk(job, s.host, s.up[0]);
    forall i | 0 <= i < |s'.down|
      ensures DownOk(job, s.host, s.device, s.dirty, s'.down[i]) || DownOk(job, s.host, s'.device, s'.dirty, s'.down[i])
    {
      if i < |s.down| {
        assert s'.down[i] == s.down[i];
      }
    }
    SurvivesKeeps(job, s, s');
  }

  lemma ReplySequence(d: Device, f: Frame, fault: StepFault)
    requires LegalStep(d, DoFrame(f, fault))
    ensures var r := Handle(d.journal, d.flash, d.mode.session, f, fault);
      && (r.next.Continue? ==> r.next.reply.sequence == f.sequence)
      && (r.next.Reboot? ==> r.next.reply.sequence == f.sequence && r.next.reply.kind == COMPLETE)
      && Apply(d, DoFrame(f, fault)) == Device(r.journal, r.flash, NextMode(r.next))
  {
    hide Append, Load32, LoadHeader, IsValidPackageHeader, DataAccepted, IsApplicationImageValid, EndAccepted, Legal, Le32;
  }

  // ----- the link and the host ----------------------------------------------------------------

  lemma LoseUpTags(s: System, i: nat)
    requires i < |s.up|
    ensures Dropped(Tags(s), Tags(s.(up := Without(s.up, i))), |s.down| + i)
  {
  }

  lemma LoseDownTags(s: System, i: nat)
    requires i < |s.down|
    ensures Dropped(Tags(s), Tags(s.(down := Without(s.down, i))), i)
  {
  }

  lemma LoseKeeps(job: Job, s: System, e: Event)
    requires SystemInv(job, s) && (e.LoseUp? || e.LoseDown?) && Possible(job, s, e)
    ensures SystemInv(job, Happen(job, s, e))
  {
    hide ActiveIsOurs, Committed, DeviceInv, UpOk, DownOk, PhaseMeans, TagsOk, Tags, Dropped;
    var s' := Happen(job, s, e);
    if e.LoseUp? {
      LoseUpTags(s, e.i);
      DroppedTags(Tags(s), Tags(s'), |s.down| + e.i, s.host.index);
    } else {
      LoseDownTags(s, e.i);
      DroppedTags(Tags(s), Tags(s'), e.i, s.host.index);
    }
  }

  lemma SendTags(s: System, m: Msg)
    requires TagsOk(Tags(s), s.host.index) && m.tag == s.host.index
    ensures TagsOk(Tags(s.(up := s.up + [m])), s.host.index)
  {
    var s', t := s.(up := s.up + [m]), Tags(s);
    assert Tags(s') == t + [m.tag];
  }

  lemma RequestIsCurrent(job: Job, h: Host)
    requires h.phase.Working() && PhaseOk(job, h.phase)
    ensures CurrentOk(job, h.phase, Request(job, h))
  {
    hide Le32;
  }

  lemma SendKeeps(job: Job, s: System)
    requires SystemInv(job, s) && Possible(job, s, Send)
    ensures SystemInv(job, Happen(job, s, Send))
  {
    hide ActiveIsOurs, Committed, DeviceInv, Tags, TagsOk, CurrentOk, PreviousOk, RequestPayload;
    var s', m := Happen(job, s, Send), Msg(s.host.index, Request(job, s.host));
    SendTags(s, m);
    TagsOfHost(s.(up := s.up + [m]), s'.host);
    RequestIsCurrent(job, s.host);
    forall i | 0 <= i < |s.down|
      ensures DownOk(job, s'.host, s'.device, s'.dirty, s'.down[i])
    {
      assert DownOk(job, s.host, s.device, s.dirty, s.down[i]);
    }
    forall i | 0 <= i < |s'.up|
      ensures UpOk(job, s'.host, s'.up[i])
    {
      if i < |s.up| {
        assert UpOk(job, s.host, s.up[i]);
      }
    }
  }

  lemma TagsOfHost(s: System, h: Host)
    ensures Tags(s.(host := h)) == Tags(s)
  {
  }

  lemma OneApart(a: nat)
    requires a > 0
    ensures SequenceOf(a) != SequenceOf(a - 1)
  {
  }

  lemma PassTags(s: System, h: Host, down: seq<Msg>)
    requires TagsOk(Tags(s), s.host.index)
    requires down == s.down || (s.down != [] && down == s.down[1..])
    ensures TagsOk(Tags(s.(host := h, down := down)), s.host.index)
  {
    hide TagsOk;
    var s', t := s.(host := h, down := down), Tags(s);
    if down == s.down {
      assert Tags(s') == t;
    } else {
      assert Dropped(t, Tags(s'), 0);
      DroppedTags(t, Tags(s'), 0, s.host.index);
    }
  }

  lemma PassKeeps(job: Job, s: System, h: Host, down: seq<Msg>)
    requires SystemInv(job, s) && h.index == s.host.index && (h.phase == s.host.phase || h.phase.GaveUp?)
    requires down == s.down || (s.down != [] && down == s.down[1..])
    ensures SystemInv(job, s.(host := h, down := down))
  {
    hide ActiveIsOurs, Committed, DeviceInv, TagsOk, Tags, CurrentOk, PreviousOk;
    PassTags(s, h, down);
    var k := |s.down| - |down|;
    forall i | 0 <= i < |down|
      ensures DownOk(job, h, s.device, s.dirty, down[i])
    {
      assert down[i] == s.down[i + k];
      assert DownOk(job, s.host, s.device, s.dirty, s.down[i + k]);
    }
    forall i | 0 <= i < |s.up|
      ensures UpOk(job, h, s.up[i])
    {
      assert UpOk(job, s.host, s.up[i]);
      PassFrame(job, s.host.phase, h.phase, s.up[i].frame);
    }
  }

  lemma PassFrame(job: Job, a: Phase, b: Phase, f: Frame)
    requires a == b || b.GaveUp?
    ensures CurrentOk(job, a, f) ==> CurrentOk(job, b, f)
    ensures PreviousOk(job, a, f) ==> PreviousOk(job, b, f)
  {
  }

  /** Accepting a response: it answers the current request, so nothing older is in flight behind it
      and everything in flight becomes the previous request of the next one. */
  lemma AcceptTags(s: System)
    requires TagsOk(Tags(s), s.host.index) && s.down != []
    requires s.down[0].frame.sequence == SequenceOf(s.down[0].tag) == SequenceOf(s.host.index)
    ensures s.down[0].tag == s.host.index
    ensures forall i | 0 <= i < |s.up| :: s.up[i].tag == s.host.index
    ensures forall i | 0 <= i < |s.down| :: s.down[i].tag == s.host.index
  {
    var t := Tags(s);
    assert t[0] == s.down[0].tag;
    if t[0] != s.host.index {
      OneApart(s.host.index);
    }
    forall i | 0 <= i < |s.up|
      ensures s.up[i].tag == s.host.index
    {
      assert t[|s.down| + i] == s.up[i].tag;
    }
    forall i | 0 <= i < |s.down|
      ensures s.down[i].tag == s.host.index
    {
      assert t[i] == s.down[i].tag;
    }
  }

  lemma AdvancePhase(job: Job, phase: Phase, kind: u8, answer: seq<u8>)
    requires JobOk(job) && Expected(phase, kind)
    ensures var next := Advance(job, phase, kind, answer);
      && PhaseOk(job, next)
      && (phase.Beginning? ==> next.Sending? || next.GaveUp?)
      && (phase.Sending? ==> next.Sending? || next.Ending? || next.GaveUp?)
      && (phase.Ending? ==> next.Done?)
  {
  }

  lemma NextRequestTags(s: System, s': System)
    requires forall i | 0 <= i < |s.up| :: s.up[i].tag == s.host.index
    requires forall i | 0 <= i < |s.down| :: s.down[i].tag == s.host.index
    requires s.down != [] && s'.up == s.up && s'.down == s.down[1..]
    ensures TagsOk(Tags(s'), s.host.index) && TagsOk(Tags(s'), s.host.index + 1)
  {
  }

  lemma ReceiveKeeps(job: Job, s: System)
    requires SystemInv(job, s) && Possible(job, s, Receive)
    ensures SystemInv(job, Happen(job, s, Receive))
  {
    hide ActiveIsOurs, Committed, DeviceInv, TagsOk, Tags, Advance;
    var f, h := s.down[0].frame, s.host;
    assert DownOk(job, h, s.device, s.dirty, s.down[0]);
    if f.sequence != SequenceOf(h.index) || !Expected(h.phase, f.kind) {
      PassKeeps(job, s, h.(waiting := false), s.down[1..]);
    } else {
      AcceptTags(s);
      AdvancePhase(job, h.phase, f.kind, f.payload);
      var next := Advance(job, h.phase, f.kind, f.payload);
      var s' := Happen(job, s, Receive);
      NextRequestTags(s, s');
      forall i | 0 <= i < |s'.down|
        ensures DownOk(job, s'.host, s'.device, s'.dirty, s'.down[i])
      {
        assert DownOk(job, h, s.device, s.dirty, s.down[i + 1]);
      }
      forall i | 0 <= i < |s'.up|
        ensures UpOk(job, s'.host, s'.up[i])
      {
        assert UpOk(job, h, s.up[i]);
      }
    }
  }

  lemma EventKeeps(job: Job, s: System, e: Event)
    requires SystemInv(job, s) && Possible(job, s, e)
    ensures SystemInv(job, Happen(job, s, e))
  {
    hide SystemInv, Served;
    match e {
      case Send => SendKeeps(job, s);
      case TimeOut => PassKeeps(job, s, s.host.(waiting := false), s.down);
      case GiveUp => PassKeeps(job, s, s.host.(phase := GaveUp), s.down);
      case Receive => ReceiveKeeps(job, s);
      case LoseUp(_) => LoseKeeps(job, s, e);
      case LoseDown(_) => LoseKeeps(job, s, e);
      case Serve(fault) => ServeKeeps(job, s, fault);
      case Other(step) => OtherKeeps(job, s, step);
    }
  }

  // ----- whole operations ---------------------------------------------------------------------

  ghost predicate EventAt(job: Job, states: seq<System>, events: seq<Event>, i: nat)
    requires |states| == |events| + 1 && i < |events|
  {
    Possible(job, states[i], events[i]) && states[i + 1] == Happen(job, states[i], events[i])
  }

  ghost predicate SystemRun(job: Job, states: seq<System>, events: seq<Event>) {
    && |states| == |events| + 1
    && forall i | 0 <= i < |events| :: EventAt(job, states, events, i)
  }

  /** flash after connect has answered: the package parses, the device is in any state it can be in,
      and copies of the HELLO exchange may still be on the wire. */
  ghost predicate Starts(package: seq<u8>, role: u32, s: System) {
    && Parse(package).Ok?
    && DeviceInv(s.device)
    && s.host.phase == Beginning && s.host.tries == FRAME_RETRIES && !s.host.waiting
    && TagsOk(Tags(s), s.host.index)
    && (forall i | 0 <= i < |s.up| ::
          && s.up[i].tag + 1 == s.host.index
          && s.up[i].frame == Frame(HELLO, SequenceOf(s.up[i].tag), []))
    && (forall i | 0 <= i < |s.down| ::
          && s.down[i].tag + 1 == s.host.index
          && s.down[i].frame.sequence == SequenceOf(s.down[i].tag))
  }

  ghost function JobOf(package: seq<u8>, role: u32, requests: bool): Job
    requires Parse(package).Ok?
  {
    Job(Parse(package).value, role, requests)
  }

  lemma {:induction false} SystemRunsKeep(package: seq<u8>, role: u32, requests: bool, states: seq<System>, events: seq<Event>, k: nat)
    requires Parse(package).Ok? && k <= |events|
    requires SystemRun(JobOf(package, role, requests), states, events) && Starts(package, role, states[0])
    ensures SystemInv(JobOf(package, role, requests), states[k])
    decreases k
  {
    hide Parse, Possible, Happen, DeviceInv, TagsOk, Tags, ActiveIsOurs, Committed;
    var job := JobOf(package, role, requests);
    if k == 0 {
      ParsedHeaderOnDevice(package);
    } else {
      SystemRunsKeep(package, role, requests, states, events, k - 1);
      assert EventAt(job, states, events, k - 1);
      EventKeeps(job, states[k - 1], events[k - 1]);
    }
  }

  ghost predicate Flashed(info: Info, role: u32, requests: bool, s: System) {
    var newest := Read(s.device.journal);
    && newest.Some?
    && (newest.value.state == STATE_VALID || (requests && newest.value.state == STATE_REQUESTED))
    && newest.value.imageSize == |info.image| && newest.value.imageCrc32 == Crc32(info.image)
    && newest.value.firmwareVersion == info.header.firmwareVersion && newest.value.appRole == role
    && |info.image| <= |s.device.flash|
    && Crc32(s.device.flash[..|info.image|]) == Crc32(info.image)
    && (!s.dirty <==> s.device.flash[..|info.image|] == info.image)
  }

  /** The operation's promise.  Over every run in which frames are lost or corrupted in either
      direction, requests are repeated, the device resets and flash operations fail: if the host
      reports success, the newest record is valid (or asks for the next update, if the application may
      request one) and carries the package's size, CRC, version and the requested role, and the CRC-32
      of application flash is the package's.  Flash holds the package's image byte for byte exactly if
      the session was not led astray: no repeated BEGIN failed while erasing since the last READY, or
      the last one that did left flash on its way to the image. */
  lemma FlashSucceeds(package: seq<u8>, role: u32, requests: bool, states: seq<System>, events: seq<Event>)
    requires Parse(package).Ok?
    requires SystemRun(JobOf(package, role, requests), states, events) && Starts(package, role, states[0])
    requires states[|events|].host.phase == Done
    ensures Flashed(Parse(package).value, role, requests, states[|events|])
  {
    hide Parse, Crc32, Read, Inv, TagsOk, Tags, UpOk, DownOk, Starts;
    ParsedHeaderOnDevice(package);
    SystemRunsKeep(package, role, requests, states, events, |events|);
  }
}
