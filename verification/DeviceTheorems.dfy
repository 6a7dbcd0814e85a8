/** What every run of the device keeps, resets and failed flash operations included. */
module DeviceTheorems {
  import opened Words
  import opened Crc
  import opened Framing
  import opened Journal
  import opened JournalTheorems
  import opened Package
  import opened Device

  // ----- the invariant ------------------------------------------------------------------------

  /** A record that makes the image bootable describes the image that is in flash. */
  ghost predicate ImageOk(newest: Option<Metadata>, flash: seq<u8>) {
    newest.Some? && newest.value.state == STATE_VALID ==>
      ImageCrcMatches(flash, newest.value.imageSize, newest.value.imageCrc32)
  }

  /** Attempts since the last confirmed one. */
  ghost function Lead(m: Metadata): int {
    (m.bootAttemptId - m.confirmedBootAttemptId) % WORD
  }

  ghost predicate CountOk(m: Metadata) {
    Lead(m) <= m.unconfirmedBootCount <= BOOT_FAILURE_LIMIT
  }

  ghost predicate StoredOk(newest: Option<Metadata>) {
    newest.Some? ==> CountOk(newest.value)
  }

  /** An active session writes only behind the image of any valid record. */
  ghost predicate SessionOk(newest: Option<Metadata>, s: Session) {
    && CountOk(s.metadata)
    && s.bytesWritten <= REGION
    && (s.active ==>
          && s.metadata.imageSize <= s.bytesWritten
          && (newest.Some? && newest.value.state == STATE_VALID ==> newest.value.imageSize <= s.bytesWritten))
  }

  /** The application runs under the attempt that the newest record names. */
  ghost predicate AppOk(newest: Option<Metadata>, app: App) {
    newest.Some? && newest.value.bootAttemptId == app.attemptId
  }

  ghost predicate ModeOk(newest: Option<Metadata>, mode: Mode) {
    match mode
    case Off => true
    case Updating(s) => SessionOk(newest, s)
    case Running(app) => AppOk(newest, app)
  }

  ghost predicate DeviceInv(d: Device) {
    && Inv(d.journal)
    && |d.flash| == REGION
    && ImageOk(Read(d.journal), d.flash)
    && StoredOk(Read(d.journal))
    && ModeOk(Read(d.journal), d.mode)
  }

  /** The journal as the rest of the device sees it. */
  lemma AppendReads(j: Pages, m: Metadata, fault: Fault)
    requires Inv(j) && Legal(j, m, fault)
    ensures var r := Append(j, m, fault);
      && Inv(r.0)
      && (Read(r.0) == Read(j) || Read(r.0) == Some(m))
      && (r.1 == Appended ==> Read(r.0) == Some(m))
  {
    hide Ordered, NoValidBeyond, Legal, Append, Read, OldOrNew;
    AppendIsAtomic(j, m, fault);
    var r := Append(j, m, fault);
    OldOrNewRead(j, m, r.0, r.1);
  }

  lemma AppendWithoutFault(j: Pages, m: Metadata)
    requires j.WellFormed()
    ensures Append(j, m, NoFault).1 == Appended && Append(j, m, NoFault).0.WellFormed()
  {
    hide FindNewest, FirstErased, Erased;
  }

  lemma LeadOfAttempt(m: Metadata)
    requires CountOk(m) && m.unconfirmedBootCount < BOOT_FAILURE_LIMIT
    ensures CountOk(Attempt(m)) && Lead(Attempt(m)) == Lead(m) + 1
  {
    var a, c := m.bootAttemptId, m.confirmedBootAttemptId;
    assert (Add32(a, 1) - c) % WORD == (a - c) % WORD + 1;
  }

  lemma BootKeeps(d: Device, fault: Fault)
    requires DeviceInv(d) && LegalStep(d, DoBoot(fault))
    ensures DeviceInv(Boot(d, fault))
  {
    hide Inv, Legal, Append, Read, ImageCrcMatches, IsApplicationImageValid, Lead;
    var m := Loaded(d.journal);
    LeadOfDefault();
    if Bootable(m, d.flash) {
      LeadOfAttempt(m);
      AppendReads(d.journal, Attempt(m), fault);
    }
  }

  lemma LeadOfDefault()
    ensures Lead(DEFAULT) == 0
  {
  }

  lemma LeadOfConfirmed(m: Metadata, id: u32)
    requires m.bootAttemptId == id
    ensures Lead(Confirmed(m, id)) == 0
    ensures m.confirmedBootAttemptId != id ==> Lead(m) >= 1
  {
  }

  lemma ReadyKeeps(d: Device, rf: bool, fault: Fault)
    requires DeviceInv(d) && LegalStep(d, DoReady(rf, fault))
    ensures DeviceInv(MarkReady(d, rf, fault))
  {
    hide Inv, Legal, Append, Read, ImageCrcMatches, Lead;
    var id := d.mode.app.attemptId;
    if Confirmable(d.journal, id) {
      var m := Read(d.journal).value;
      LeadOfConfirmed(m, id);
      AppendReads(d.journal, Confirmed(m, id), fault);
    }
  }

  lemma RequestKeeps(d: Device, fault: Fault)
    requires DeviceInv(d) && LegalStep(d, DoRequest(fault))
    ensures DeviceInv(RequestUpdate(d, fault))
  {
    hide Inv, Legal, Append, Read, ImageCrcMatches;
    AppendReads(d.journal, Requested(d.journal), fault);
  }

  // ----- frames -------------------------------------------------------------------------------

  ghost predicate HandledOk(h: Handled) {
    DeviceInv(Device(h.journal, h.flash, NextMode(h.next)))
  }

  lemma BeginKeeps(j: Pages, flash: seq<u8>, s: Session, f: Frame, fault: StepFault)
    requires DeviceInv(Device(j, flash, Updating(s))) && FaultShape(fault) && |f.payload| == HEADER_SIZE + 4
    requires Legal(j, DEFAULT, fault.journal)
    ensures HandledOk(HandleBegin(j, flash, s, f, fault))
  {
    hide Inv, Legal, Append, Read, ImageCrcMatches, Lead, IsValidPackageHeader, LoadHeader, Load32, EraseApplication;
    LeadOfDefault();
    AppendReads(j, DEFAULT, fault.journal);
  }

  lemma PrefixUntouched(flash: seq<u8>, flash': seq<u8>, offset: nat, size: u32, crc: u32)
    requires size <= offset <= |flash| == |flash'| && flash'[..offset] == flash[..offset]
    ensures ImageCrcMatches(flash', size, crc) == ImageCrcMatches(flash, size, crc)
  {
    hide Crc32;
    assert flash'[..size] == flash'[..offset][..size];
    assert flash[..size] == flash[..offset][..size];
  }

  lemma DataKeeps(j: Pages, flash: seq<u8>, s: Session, f: Frame, fault: StepFault)
    requires DeviceInv(Device(j, flash, Updating(s))) && s.active && |f.payload| >= 4
    ensures HandledOk(HandleData(j, flash, s, f, fault))
    ensures Read(j).Some? && Read(j).value.state == STATE_VALID ==>
      var n := Read(j).value.imageSize;
      n <= REGION && HandleData(j, flash, s, f, fault).flash[..n] == flash[..n]
  {
    hide Ordered, NoValidBeyond, Read, ImageCrcMatches, Lead, DataAccepted, Load32, And;
    var offset := Load32(f.payload, 0);
    var h := HandleData(j, flash, s, f, fault);
    if offset == s.bytesWritten && Read(j).Some? && Read(j).value.state == STATE_VALID {
      assert h.flash[..offset] == flash[..offset];
      PrefixUntouched(flash, h.flash, offset, Read(j).value.imageSize, Read(j).value.imageCrc32);
    }
  }

  lemma CommitKeeps(j: Pages, flash: seq<u8>, s: Session, f: Frame, fault: StepFault)
    requires Inv(j) && |flash| == REGION && FaultShape(fault)
    requires ImageOk(Read(j), flash) && StoredOk(Read(j)) && SessionOk(Read(j), s)
    requires s.metadata.state == STATE_VALID
    requires ImageCrcMatches(flash, s.metadata.imageSize, s.metadata.imageCrc32)
    requires Legal(j, s.metadata, fault.journal)
    ensures HandledOk(Commit(j, flash, s, f, fault))
  {
    hide Inv, Legal, Append, Read, ImageCrcMatches, Lead;
    AppendReads(j, s.metadata, fault.journal);
  }

  lemma FrameKeeps(j: Pages, flash: seq<u8>, s: Session, f: Frame, fault: StepFault)
    requires DeviceInv(Device(j, flash, Updating(s)))
    requires LegalStep(Device(j, flash, Updating(s)), DoFrame(f, fault))
    ensures HandledOk(Handle(j, flash, s, f, fault))
  {
    hide Inv, Legal, Append, Read, ImageCrcMatches, Lead, HandleBegin, HandleData, Commit, LoadHeader, Load32, LegalProgram;
    if f.kind == BEGIN && |f.payload| == HEADER_SIZE + 4 {
      BeginKeeps(j, flash, s, f, fault);
    } else if f.kind == DATA && s.active && |f.payload| >= 4 {
      DataKeeps(j, flash, s, f, fault);
    } else if f.kind == END && s.active && f.payload == [] && EndAccepted(flash, s) {
      LeadOfInstalled(s);
      CommitKeeps(j, flash, s.(metadata := Installed(s)), f, fault);
    } else if f.kind == SET_ROLE && SetRoleAccepted(flash, s, f) {
      var m := s.metadata.(state := STATE_VALID, appRole := Load32(f.payload, 0));
      LeadOfRole(s.metadata, m);
      CommitKeeps(j, flash, s.(metadata := m), f, fault);
    }
  }

  lemma LeadOfInstalled(s: Session)
    ensures CountOk(Installed(s))
  {
  }

  lemma LeadOfRole(m: Metadata, n: Metadata)
    requires n == m.(state := n.state, appRole := n.appRole)
    ensures Lead(n) == Lead(m)
  {
  }

  /** Every step, with every fault it can suffer, keeps the invariant. */
  lemma StepKeeps(d: Device, step: Step)
    requires DeviceInv(d) && LegalStep(d, step)
    ensures DeviceInv(Apply(d, step))
  {
    hide Boot, MarkReady, RequestUpdate, Handle, Inv, Read, ImageOk, StoredOk, SessionOk, AppOk, Written;
    match step {
      case PowerCycle =>
      case DoBoot(fault) => BootKeeps(d, fault);
      case DoReady(rf, fault) => ReadyKeeps(d, rf, fault);
      case DoRequest(fault) => RequestKeeps(d, fault);
      case DoFrame(f, fault) => FrameKeeps(d.journal, d.flash, d.mode.session, f, fault);
    }
  }

  // ----- runs ---------------------------------------------------------------------------------

  ghost predicate DeviceStepAt(states: seq<Device>, steps: seq<Step>, i: nat)
    requires |states| == |steps| + 1 && i < |steps|
  {
    LegalStep(states[i], steps[i]) && states[i + 1] == Apply(states[i], steps[i])
  }

  ghost predicate DeviceRun(states: seq<Device>, steps: seq<Step>) {
    && |states| == |steps| + 1
    && forall i | 0 <= i < |steps| :: DeviceStepAt(states, steps, i)
  }

  /** A new chip, or one programmed in the factory with an image and a record that describes it. */
  ghost predicate Initial(d: Device) {
    && d.mode == Off
    && |d.flash| == REGION
    && (|| d.journal == Pages(ErasedPage(), ErasedPage())
        || exists m :: FactoryRecord(d, m))
  }

  ghost predicate FactoryRecord(d: Device, m: Metadata) {
    && d.journal == Pages(ErasedPage()[0 := Complete(Body(1, m))], ErasedPage())
    && m.unconfirmedBootCount == m.bootAttemptId == m.confirmedBootAttemptId == 0
    && m.state == STATE_VALID
    && ImageCrcMatches(d.flash, m.imageSize, m.imageCrc32)
  }

  lemma InitialIsInv(d: Device)
    requires Initial(d)
    ensures DeviceInv(d)
  {
    hide Inv, Read, ImageCrcMatches, Complete, ErasedPage, Body;
    if d.journal == Pages(ErasedPage(), ErasedPage()) {
      ErasedIsInv();
    } else {
      var m :| FactoryRecord(d, m);
      FactoryIsInv(m);
    }
  }

  /** Safety of every run: whatever is cut or fails, and however often, the newest record never calls
      an image valid that is not in flash, the boot counter stays within its limit, and a session
      never writes into an image that a valid record describes. */
  lemma {:induction false} RunsKeepInvariant(states: seq<Device>, steps: seq<Step>, k: nat)
    requires DeviceRun(states, steps) && Initial(states[0]) && k <= |steps|
    ensures DeviceInv(states[k])
    decreases k
  {
    hide DeviceInv, LegalStep, Apply, Initial;
    if k == 0 {
      InitialIsInv(states[0]);
    } else {
      RunsKeepInvariant(states, steps, k - 1);
      assert DeviceStepAt(states, steps, k - 1);
      StepKeeps(states[k - 1], steps[k - 1]);
    }
  }

  // ----- an interrupted update ----------------------------------------------------------------

  /** The record of a BEGIN is the newest one. */
  ghost predicate Pending(d: Device) {
    && Sized(d.journal, d.flash)
    && Inv(d.journal)
    && Read(d.journal) == Some(DEFAULT)
    && !d.mode.Running?
  }

  /** Besides, no session describes an image: nothing but END can give it one. */
  ghost predicate Unfinished(d: Device) {
    && Pending(d)
    && (d.mode.Updating? ==> d.mode.session.metadata.imageSize == 0)
  }

  /** BEGIN touches application flash only after its record is durable: if it changed flash, or
      answered READY, the device is there, whether it goes on, reports an error or goes dark. */
  lemma BeginIsUnfinished(d: Device, f: Frame, fault: StepFault)
    requires DeviceInv(d) && LegalStep(d, DoFrame(f, fault)) && f.kind == BEGIN
    ensures var h := Handle(d.journal, d.flash, d.mode.session, f, fault);
      h.flash != d.flash || (h.next.Continue? && h.next.reply.kind == READY) ==>
        Unfinished(Apply(d, DoFrame(f, fault)))
  {
    hide Ordered, NoValidBeyond, Legal, Append, Read, ImageCrcMatches, IsValidPackageHeader, LoadHeader, Load32, EraseApplication;
    if |f.payload| == HEADER_SIZE + 4 {
      AppendReads(d.journal, DEFAULT, fault.journal);
    }
  }

  /** The step is an END that passes all of the device's checks. */
  ghost predicate EndsUpdate(d: Device, step: Step)
    requires Enabled(d, step)
  {
    && step.DoFrame? && step.frame.kind == END && step.frame.payload == []
    && d.mode.session.active && EndAccepted(d.flash, d.mode.session)
  }

  /** The step leaves a new record, of END or of SET_ROLE, as the newest one. */
  ghost predicate Records(d: Device, step: Step)
    requires Enabled(d, step)
  {
    && step.DoFrame? && step.frame.kind != BEGIN
    && Written(d, step).Some? && Read(Apply(d, step).journal) == Written(d, step)
  }

  /** Until an END is accepted nothing completes the update: not a reset, not SET_ROLE, not a retry,
      not an END that is refused. */
  lemma UnfinishedStep(d: Device, step: Step)
    requires Unfinished(d) && LegalStep(d, step) && !EndsUpdate(d, step)
    ensures Unfinished(Apply(d, step)) && !Records(d, step)
  {
    hide Ordered, NoValidBeyond, Legal, Append, Read, ImageCrcMatches, IsValidPackageHeader, LoadHeader, Load32,
         EraseApplication, HandleData, HandleBegin, LegalProgram;
    if step.DoFrame? {
      var f, s := step.frame, d.mode.session;
      if f.kind == BEGIN && |f.payload| == HEADER_SIZE + 4 {
        PendingBegin(d, f, step.flashFault);
      } else if f.kind == DATA && s.active && |f.payload| >= 4 {
        PendingData(d, f, step.flashFault);
      }
    }
  }

  /** And a device whose BEGIN is on record keeps that record until a step leaves another one: an END
      whose append fails without a record changes nothing for the next boot. */
  lemma PendingStep(d: Device, step: Step)
    requires Pending(d) && LegalStep(d, step)
    ensures Pending(Apply(d, step)) <==> !Records(d, step)
  {
    hide Ordered, NoValidBeyond, Legal, Append, Read, ImageCrcMatches, IsValidPackageHeader, LoadHeader, Load32,
         EraseApplication, HandleData, HandleBegin, LegalProgram;
    if step.DoFrame? {
      var f, s, w := step.frame, d.mode.session, Written(d, step);
      if f.kind == BEGIN && |f.payload| == HEADER_SIZE + 4 {
        PendingBegin(d, f, step.flashFault);
      } else if f.kind == DATA && s.active && |f.payload| >= 4 {
        PendingData(d, f, step.flashFault);
      } else if w.Some? {
        AppendReads(d.journal, w.value, step.flashFault.journal);
      }
    }
  }

  lemma PendingBegin(d: Device, f: Frame, fault: StepFault)
    requires Pending(d) && d.mode.Updating? && FaultShape(fault) && |f.payload| == HEADER_SIZE + 4
    requires Legal(d.journal, DEFAULT, fault.journal)
    ensures var h := HandleBegin(d.journal, d.flash, d.mode.session, f, fault);
      var d' := Device(h.journal, h.flash, NextMode(h.next));
      Pending(d') && (Unfinished(d) ==> Unfinished(d'))
  {
    hide Ordered, NoValidBeyond, Legal, Append, Read, IsValidPackageHeader, LoadHeader, Load32, EraseApplication;
    AppendReads(d.journal, DEFAULT, fault.journal);
  }

  lemma PendingData(d: Device, f: Frame, fault: StepFault)
    requires Pending(d) && d.mode.Updating? && |f.payload| >= 4
    ensures var h := HandleData(d.journal, d.flash, d.mode.session, f, fault);
      var d' := Device(h.journal, h.flash, NextMode(h.next));
      Pending(d') && (Unfinished(d) ==> Unfinished(d'))
  {
    hide Ordered, NoValidBeyond, Read, DataAccepted, Load32, And;
  }

  ghost predicate EndsUpdateAt(states: seq<Device>, steps: seq<Step>, i: nat)
    requires |states| == |steps| + 1 && i < |steps|
  {
    Enabled(states[i], steps[i]) && EndsUpdate(states[i], steps[i])
  }

  ghost predicate RecordsAt(states: seq<Device>, steps: seq<Step>, i: nat)
    requires |states| == |steps| + 1 && i < |steps|
  {
    Enabled(states[i], steps[i]) && Records(states[i], steps[i])
  }

  /** No update completes without an END that is accepted, over every run. */
  lemma {:induction false} UnfinishedUntilEnd(states: seq<Device>, steps: seq<Step>, k: nat)
    requires DeviceRun(states, steps) && Unfinished(states[0]) && k <= |steps|
    requires forall i | 0 <= i < k :: !EndsUpdateAt(states, steps, i)
    ensures Unfinished(states[k])
    ensures forall i | 0 <= i < k :: !RecordsAt(states, steps, i)
    decreases k
  {
    hide LegalStep, Apply, Inv, Read, EndsUpdate, Records, Enabled;
    if k > 0 {
      UnfinishedUntilEnd(states, steps, k - 1);
      assert DeviceStepAt(states, steps, k - 1);
      LegalIsEnabled(states[k - 1], steps[k - 1]);
      assert !EndsUpdateAt(states, steps, k - 1);
      UnfinishedStep(states[k - 1], steps[k - 1]);
    }
  }

  lemma LegalIsEnabled(d: Device, step: Step)
    requires LegalStep(d, step)
    ensures Enabled(d, step)
  {
    hide Written, LegalProgram;
  }

  /** Between the durable record of BEGIN and that of END every boot ends in the updater, over every
      run: whatever is refused, repeated, cut or fails. */
  lemma {:induction false} UnfinishedStaysInUpdater(states: seq<Device>, steps: seq<Step>, k: nat)
    requires DeviceRun(states, steps) && Pending(states[0]) && k <= |steps|
    requires forall i | 0 <= i < k :: !RecordsAt(states, steps, i)
    ensures Pending(states[k]) && !states[k].mode.Running?
    ensures forall fault :: Boot(states[k], fault).mode.Updating?
    decreases k
  {
    hide LegalStep, Apply, Inv, Read, Records, Enabled;
    if k > 0 {
      UnfinishedStaysInUpdater(states, steps, k - 1);
      assert DeviceStepAt(states, steps, k - 1);
      LegalIsEnabled(states[k - 1], steps[k - 1]);
      assert !RecordsAt(states, steps, k - 1);
      PendingStep(states[k - 1], steps[k - 1]);
    }
    PendingBoots(states[k]);
  }

  lemma PendingBoots(d: Device)
    requires Pending(d)
    ensures forall fault :: Boot(d, fault).mode.Updating?
  {
    hide Read, Append, IsApplicationImageValid;
  }

  /** So an application that runs again was recorded by an accepted END, or by a SET_ROLE after one. */
  lemma RunningAgainMeansEnd(states: seq<Device>, steps: seq<Step>, k: nat)
    requires DeviceRun(states, steps) && Unfinished(states[0]) && k <= |steps| && states[k].mode.Running?
    ensures exists i, j | 0 <= i <= j < k :: EndsUpdateAt(states, steps, i) && RecordsAt(states, steps, j)
  {
    hide DeviceStepAt, Pending, EndsUpdateAt, RecordsAt;
    if forall j | 0 <= j < k :: !RecordsAt(states, steps, j) {
      UnfinishedStaysInUpdater(states, steps, k);
    } else {
      var j :| 0 <= j < k && RecordsAt(states, steps, j);
      if forall i | 0 <= i < j + 1 :: !EndsUpdateAt(states, steps, i) {
        UnfinishedUntilEnd(states, steps, j + 1);
      }
    }
  }

  // ----- boot accounting ----------------------------------------------------------------------

  /** What an observer counts: handoffs since the last install that were never confirmed, and durable
      confirmations of the current one. */
  datatype History = History(unconfirmed: int, confirms: nat)

  ghost predicate ConfirmedNow(d: Device, d': Device) {
    && d.mode.Running?
    && Confirmable(d.journal, d.mode.app.attemptId)
    && Read(d'.journal) == Some(Confirmed(Read(d.journal).value, d.mode.app.attemptId))
  }

  /** A BEGIN or END whose record has become the newest starts the count afresh. */
  ghost predicate InstallNow(d: Device, step: Step, d': Device)
    requires Enabled(d, step)
  {
    && step.DoFrame? && step.frame.kind != SET_ROLE
    && Written(d, step).Some? && Read(d'.journal) == Written(d, step)
  }

  ghost function Observe(h: History, d: Device, step: Step): History
    requires Enabled(d, step)
  {
    var d' := Apply(d, step);
    match step
    case DoBoot(_) => if d'.mode.Running? then History(h.unconfirmed + 1, 0) else h
    case DoReady(_, _) => if ConfirmedNow(d, d') then History(h.unconfirmed - 1, h.confirms + 1) else h
    case DoFrame(_, _) => if InstallNow(d, step, d') then h.(unconfirmed := 0) else h
    case _ => h
  }

  ghost predicate HistoryOk(d: Device, h: History) {
    && 0 <= h.unconfirmed
    && (Read(d.journal).None? ==> h.unconfirmed == 0)
    && (Read(d.journal).Some? ==> h.unconfirmed <= Read(d.journal).value.unconfirmedBootCount)
    && match d.mode
       case Off => true
       case Updating(s) =>
         && (s.active ==> h.unconfirmed == 0)
         && (s.metadata.imageSize != 0 ==> h.unconfirmed <= s.metadata.unconfirmedBootCount)
       case Running(app) =>
         && (Confirmable(d.journal, app.attemptId) ==> h.confirms == 0 && h.unconfirmed >= 1)
         && h.confirms <= 1
  }

  lemma BootCounts(d: Device, fault: Fault, h: History)
    requires DeviceInv(d) && HistoryOk(d, h) && LegalStep(d, DoBoot(fault))
    ensures HistoryOk(Boot(d, fault), Observe(h, d, DoBoot(fault)))
  {
    hide Ordered, NoValidBeyond, Legal, Append, Read, ImageCrcMatches, IsApplicationImageValid, Lead, Sized;
    var m := Loaded(d.journal);
    if Bootable(m, d.flash) {
      LeadOfAttempt(m);
      AppendReads(d.journal, Attempt(m), fault);
    }
  }

  lemma ReadyCounts(d: Device, rf: bool, fault: Fault, h: History)
    requires DeviceInv(d) && HistoryOk(d, h) && LegalStep(d, DoReady(rf, fault))
    ensures HistoryOk(MarkReady(d, rf, fault), Observe(h, d, DoReady(rf, fault)))
  {
    hide Ordered, NoValidBeyond, Legal, Append, Read, ImageCrcMatches, Lead, Sized;
    var id := d.mode.app.attemptId;
    if Confirmable(d.journal, id) {
      var m := Read(d.journal).value;
      LeadOfConfirmed(m, id);
      AppendReads(d.journal, Confirmed(m, id), fault);
    }
  }

  lemma RequestCounts(d: Device, fault: Fault, h: History)
    requires DeviceInv(d) && HistoryOk(d, h) && LegalStep(d, DoRequest(fault))
    ensures HistoryOk(RequestUpdate(d, fault), h)
  {
    hide Ordered, NoValidBeyond, Legal, Append, Read, ImageCrcMatches, Lead, Sized;
    AppendReads(d.journal, Requested(d.journal), fault);
  }

  lemma FrameCounts(d: Device, f: Frame, fault: StepFault, h: History)
    requires DeviceInv(d) && HistoryOk(d, h) && LegalStep(d, DoFrame(f, fault))
    ensures HistoryOk(Apply(d, DoFrame(f, fault)), Observe(h, d, DoFrame(f, fault)))
  {
    hide Ordered, NoValidBeyond, Legal, Append, Read, ImageCrcMatches, Lead, IsValidPackageHeader, LoadHeader, Load32,
         EraseApplication, DataAccepted, And;
    var w := Written(d, DoFrame(f, fault));
    if w.Some? {
      AppendReads(d.journal, w.value, fault.journal);
    }
  }

  lemma StepCounts(d: Device, step: Step, h: History)
    requires DeviceInv(d) && HistoryOk(d, h) && LegalStep(d, step)
    ensures HistoryOk(Apply(d, step), Observe(h, d, step))
  {
    hide Boot, MarkReady, RequestUpdate, Handle, DeviceInv, Written, InstallNow, Read;
    match step {
      case PowerCycle =>
      case DoBoot(fault) => BootCounts(d, fault, h);
      case DoReady(rf, fault) => ReadyCounts(d, rf, fault, h);
      case DoRequest(fault) => RequestCounts(d, fault, h);
      case DoFrame(f, fault) => FrameCounts(d, f, fault, h);
    }
  }

  ghost function Observed(states: seq<Device>, steps: seq<Step>, k: nat): History
    requires DeviceRun(states, steps) && k <= |steps|
    decreases k
  {
    if k == 0 then History(0, 0) else
    assert DeviceStepAt(states, steps, k - 1);
    Observe(Observed(states, steps, k - 1), states[k - 1], steps[k - 1])
  }

  /** Over every run the stored counter is at least the number of unconfirmed handoffs since the last
      install and at most three, and no handoff is confirmed twice. */
  lemma {:induction false} RunsCountBoots(states: seq<Device>, steps: seq<Step>, k: nat)
    requires DeviceRun(states, steps) && Initial(states[0]) && k <= |steps|
    ensures var h := Observed(states, steps, k);
      && HistoryOk(states[k], h)
      && h.unconfirmed <= BOOT_FAILURE_LIMIT
      && (states[k].mode.Running? ==> h.confirms <= 1)
    decreases k
  {
    hide LegalStep, Apply, Initial, Observe, Inv, Read, Confirmable;
    RunsKeepInvariant(states, steps, k);
    if k == 0 {
      InitialMode(states[0]);
    } else {
      RunsCountBoots(states, steps, k - 1);
      RunsKeepInvariant(states, steps, k - 1);
      assert DeviceStepAt(states, steps, k - 1);
      StepCounts(states[k - 1], steps[k - 1], Observed(states, steps, k - 1));
    }
  }

  lemma InitialMode(d: Device)
    requires Initial(d)
    ensures d.mode == Off
  {
  }

  /** The guard against decrementing zero is never needed: a confirmation that finds its attempt
      unconfirmed finds the counter positive, so it always decrements. */
  lemma ZeroGuardUnused(d: Device, attemptId: u32)
    requires DeviceInv(d) && Confirmable(d.journal, attemptId)
    ensures Read(d.journal).value.unconfirmedBootCount >= 1
    ensures Confirmed(Read(d.journal).value, attemptId).unconfirmedBootCount
         == Read(d.journal).value.unconfirmedBootCount - 1
  {
    hide Inv, Read, Lead;
    LeadOfConfirmed(Read(d.journal).value, attemptId);
  }

  /** SET_ROLE keeps the boot counter.  A device that has completed it returns to the application exactly
      if the counter was below its limit; at the limit it returns to the updater, whatever fails. */
  lemma SetRoleKeepsLimit(d: Device, f: Frame, fault: StepFault, boot: Fault)
    requires DeviceInv(d) && LegalStep(d, DoFrame(f, fault)) && f.kind == SET_ROLE
    requires Handle(d.journal, d.flash, d.mode.session, f, fault).next.Reboot?
    ensures var d', below := Apply(d, DoFrame(f, fault)), d.mode.session.metadata.unconfirmedBootCount < BOOT_FAILURE_LIMIT;
      && d'.mode == Off && Sized(d'.journal, d'.flash)
      && (Bootable(Loaded(d'.journal), d'.flash) <==> below)
      && (Boot(d', NoFault).mode.Running? <==> below)
      && (!below ==> Boot(d', boot).mode.Updating?)
  {
    hide Ordered, NoValidBeyond, Legal, Append, Read, ImageCrcMatches, Load32;
    AppendReads(d.journal, Written(d, DoFrame(f, fault)).value, fault.journal);
    var d' := Apply(d, DoFrame(f, fault));
    AppendWithoutFault(d'.journal, Attempt(Loaded(d'.journal)));
  }

  // ----- what the steps record ----------------------------------------------------------------

  /** bl_get_startup_role: TX only for a handoff that says so. */
  function StartupRole(app: App): u32 {
    if app.armed && app.role == 2 then 2 else 1
  }

  /** Handing over means: a bootable image, one more attempt on record, and a handoff that names this
      attempt and the recorded role. */
  lemma HandoffIsRecorded(d: Device, fault: Fault)
    requires DeviceInv(d) && LegalStep(d, DoBoot(fault)) && Boot(d, fault).mode.Running?
    ensures var d', app := Boot(d, fault), Boot(d, fault).mode.app;
      && Read(d.journal).Some? && Bootable(Read(d.journal).value, d.flash) && d'.flash == d.flash
      && var m := Read(d.journal).value;
         && Read(d'.journal) == Some(m.(unconfirmedBootCount := m.unconfirmedBootCount + 1, bootAttemptId := app.attemptId))
         && app.attemptId == Add32(m.bootAttemptId, 1)
         && (StartupRole(app) == 2 <==> m.appRole == 2)
         && Confirmable(d'.journal, app.attemptId)
  {
    hide Ordered, NoValidBeyond, Legal, Append, Read, ImageCrcMatches, IsApplicationImageValid, Lead;
    var m := Loaded(d.journal);
    LeadOfAttempt(m);
    LeadBounds(m);
    LeadBounds(Attempt(m));
    AppendReads(d.journal, Attempt(m), fault);
  }

  lemma LeadBounds(m: Metadata)
    ensures 0 <= Lead(m)
    ensures m.bootAttemptId == m.confirmedBootAttemptId ==> Lead(m) == 0
  {
  }

  /** A recorded update request resets the device, and its next boot ends in the updater. */
  lemma RequestLeadsToUpdater(d: Device, fault: Fault, boot: Fault)
    requires DeviceInv(d) && LegalStep(d, DoRequest(fault))
    requires Append(d.journal, Requested(d.journal), fault).1 == Appended
    ensures var d' := RequestUpdate(d, fault);
      && d'.mode == Off && Sized(d'.journal, d'.flash)
      && Boot(d', boot).mode.Updating?
      && Read(d'.journal) == Some(Loaded(d.journal).(state := STATE_REQUESTED))
  {
    hide Ordered, NoValidBeyond, Legal, Append, Read, IsApplicationImageValid;
    AppendReads(d.journal, Requested(d.journal), fault);
  }

  /** A completed SET_ROLE changes the role and makes the record valid; everything else on record,
      and the image, stays as the session had it. */
  lemma SetRoleRecords(d: Device, f: Frame, fault: StepFault)
    requires DeviceInv(d) && LegalStep(d, DoFrame(f, fault)) && f.kind == SET_ROLE
    requires Handle(d.journal, d.flash, d.mode.session, f, fault).next.Reboot?
    ensures var d' := Apply(d, DoFrame(f, fault));
      && |f.payload| == 4 && d'.flash == d.flash
      && Read(d'.journal)
         == Some(d.mode.session.metadata.(state := STATE_VALID, appRole := Load32(f.payload, 0)))
  {
    hide Ordered, NoValidBeyond, Legal, Append, Read, ImageCrcMatches, Load32;
    AppendReads(d.journal, Written(d, DoFrame(f, fault)).value, fault.journal);
  }

  /** A completed END records the header's size, CRC and version, the requested role and fresh counters. */
  lemma EndRecords(d: Device, f: Frame, fault: StepFault)
    requires DeviceInv(d) && LegalStep(d, DoFrame(f, fault)) && f.kind == END
    requires Handle(d.journal, d.flash, d.mode.session, f, fault).next.Reboot?
    ensures var d', s := Apply(d, DoFrame(f, fault)), d.mode.session;
      && d'.flash == d.flash && s.bytesWritten == s.header.imageSize
      && Read(d'.journal) == Some(Metadata(STATE_VALID, s.header.imageSize, s.header.imageCrc32,
                                           s.header.firmwareVersion, s.role, 0, 0, 0))
  {
    hide Ordered, NoValidBeyond, Legal, Append, Read, ImageCrcMatches, Load32;
    AppendReads(d.journal, Written(d, DoFrame(f, fault)).value, fault.journal);
  }

  lemma Field(s: seq<u8>, at: nat, v: u32)
    requires at + 4 <= |s| && s[at..at + 4] == Le32(v)
    ensures Load32(s, at) == v
  {
    LoadStored32(s, at, v);
  }

  /** The host reads from an INFO response what the device has on record. */
  lemma InfoFields(m: Metadata)
    ensures var p := InfoPayload(m);
      && |p| == 24
      && Load32(p, 0) == FIRMWARE_TARGET_ID && Load32(p, 4) == m.state && Load32(p, 8) == SLOT_SIZE
      && Load32(p, 12) == m.imageSize && Load32(p, 16) == m.firmwareVersion && Load32(p, 20) == m.appRole
  {
    hide Le32, Load32;
    var p := InfoPayload(m);
    Field(p, 0, FIRMWARE_TARGET_ID);
    Field(p, 4, m.state);
    Field(p, 8, SLOT_SIZE);
    Field(p, 12, m.imageSize);
    Field(p, 16, m.firmwareVersion);
    Field(p, 20, m.appRole);
  }
}
