/** The resident bootloader and the application's use of it, as one state machine: the metadata
    journal, the application flash, and whatever is running.  Every flash operation can stop at any
    point, with an error return or with the loss of power. */
module Device {
  import opened Words
  import opened Crc
  import opened Framing
  import opened Journal
  import opened Package

  /** Application flash and the reserved page behind it: everything from 0x8000 to the end. */
  const REGION := 0x1_8000
  const PAGE_SIZE := 0x1000
  const SLOT_PAGES := 23
  const BOOT_FAILURE_LIMIT := 3

  const STATE_VALID: u32 := 1
  const STATE_REQUESTED: u32 := 2
  const STATE_IN_PROGRESS: u32 := 3

  const HELLO: u8 := 1
  const INFO: u8 := 2
  const BEGIN: u8 := 3
  const READY: u8 := 4
  const DATA: u8 := 5
  const ACK: u8 := 6
  const NACK: u8 := 7
  const END: u8 := 8
  const COMPLETE: u8 := 9
  const ERROR: u8 := 10
  const SET_ROLE: u8 := 11

  predicate IsValidAppRole(role: u32) { role <= 2 }

  /** setDefaultMetadata. */
  const DEFAULT := Metadata(STATE_IN_PROGRESS, 0, 0, 0, 0, 0, 0, 0)

  // ----- application flash --------------------------------------------------------------------

  /** Where an operation on application flash stops, and what it leaves there. */
  datatype FlashFault =
    | FlashOk
    | EraseStops(page: nat, left: seq<u8>, powerLost: bool)
    | ProgramStops(left: seq<u8>, powerLost: bool)

  function ErasedBytes(n: nat): (r: seq<u8>)
    ensures |r| == n
  {
    seq(n, i => 0xFF)
  }

  /** eraseApplicationFlash: page after page, leaving the reserved page alone. */
  function EraseApplication(flash: seq<u8>, fault: FlashFault): (r: seq<u8>)
    requires |flash| == REGION
    requires fault.EraseStops? ==> fault.page < SLOT_PAGES && |fault.left| == PAGE_SIZE
    ensures |r| == REGION
  {
    if fault.EraseStops? then
      ErasedBytes(PAGE_SIZE * fault.page) + fault.left + flash[PAGE_SIZE * (fault.page + 1)..]
    else ErasedBytes(SLOT_SIZE) + flash[SLOT_SIZE..]
  }

  /** Programming ANDs the data into flash. */
  function Programmed(flash: seq<u8>, offset: nat, data: seq<u8>): (r: seq<u8>)
    requires offset + |data| <= |flash|
    ensures |r| == |flash|
  {
    flash[..offset]
    + seq(|data|, i requires 0 <= i < |data| => var b: u8 := And(flash[offset + i], data[i]); b)
    + flash[offset + |data|..]
  }

  /** An interrupted program has cleared some of the bits it had to clear, and no others. */
  ghost predicate PartlyDone(before: seq<u8>, data: seq<u8>, left: seq<u8>) {
    && |left| == |before| == |data|
    && forall i | 0 <= i < |data| ::
         And(left[i], And(before[i], data[i])) == And(before[i], data[i]) && And(left[i], before[i]) == left[i]
  }

  function Replaced(flash: seq<u8>, offset: nat, left: seq<u8>): (r: seq<u8>)
    requires offset + |left| <= |flash|
    ensures |r| == |flash|
  {
    flash[..offset] + left + flash[offset + |left|..]
  }

  function ImageCrcMatches(flash: seq<u8>, size: u32, crc: u32): bool {
    size <= |flash| && Crc32(flash[..size]) == crc
  }

  /** isApplicationImageValid: the vector table looks sane and the CRC-32 of the image matches. */
  predicate IsApplicationImageValid(m: Metadata, flash: seq<u8>)
    requires |flash| == REGION
  {
    var stack, entry := Load32(flash, 0), Load32(flash, 4);
    && 0 != m.imageSize <= SLOT_SIZE
    && 0x2000_0000 <= stack < 0x2000_5000
    && entry % 2 == 1 && 0x8000 <= entry < 0x1_F000
    && ImageCrcMatches(flash, m.imageSize, m.imageCrc32)
  }

  // ----- the update session -------------------------------------------------------------------

  /** Locals of runFirmwareUpdate. */
  datatype Session = Session(
    metadata: Metadata, header: Header, role: u32, bytesWritten: u32, active: bool)

  /** packageHeader before the first BEGIN; it is not read while the session is inactive. */
  const NO_HEADER := Header(0, 0, 0, 0, 0, 0, 0, 0, 0)

  function NewSession(m: Metadata): Session { Session(m, NO_HEADER, 0, 0, false) }

  datatype StepFault = StepFault(journal: Fault, flash: FlashFault)

  datatype Next =
    | Continue(session: Session, reply: Frame)
    | Reboot(reply: Frame)
    | Dark

  /** Flash after a frame was handled, and what the bootloader does next. */
  datatype Handled = Handled(journal: Pages, flash: seq<u8>, next: Next)

  function Reply(kind: u8, f: Frame, payload: seq<u8>): Frame { Frame(kind, f.sequence, payload) }

  function Refuse(j: Pages, flash: seq<u8>, s: Session, f: Frame): Handled {
    Handled(j, flash, Continue(s, Reply(ERROR, f, [])))
  }

  function InfoPayload(m: Metadata): seq<u8> {
    Le32(FIRMWARE_TARGET_ID) + Le32(m.state) + Le32(SLOT_SIZE) + Le32(m.imageSize)
    + Le32(m.firmwareVersion) + Le32(m.appRole)
  }

  predicate FaultShape(fault: StepFault) {
    && (fault.flash.EraseStops? ==> fault.flash.page < SLOT_PAGES && |fault.flash.left| == PAGE_SIZE)
    && (fault.journal.AtErase? ==> |fault.journal.page| == SLOTS)
  }

  predicate Sized(j: Pages, flash: seq<u8>) { j.WellFormed() && |flash| == REGION }

  /** BEGIN.  Header and role are taken over before they are checked. */
  function HandleBegin(j: Pages, flash: seq<u8>, s0: Session, f: Frame, fault: StepFault): Handled
    requires Sized(j, flash) && FaultShape(fault) && |f.payload| == HEADER_SIZE + 4
  {
    var s := s0.(header := LoadHeader(f.payload), role := Load32(f.payload, HEADER_SIZE));
    if !IsValidPackageHeader(s.header) || !IsValidAppRole(s.role) then Refuse(j, flash, s, f) else
    var s1 := s.(metadata := DEFAULT);
    var (j1, r) := Append(j, DEFAULT, fault.journal);
    match r
    case PowerLost => Handled(j1, flash, Dark)
    case Failed => Refuse(j1, flash, s1, f)
    case Appended =>
      var flash1 := EraseApplication(flash, fault.flash);
      if fault.flash.EraseStops? then
        if fault.flash.powerLost then Handled(j1, flash1, Dark) else Refuse(j1, flash1, s1, f)
      else Handled(j1, flash1, Continue(s1.(bytesWritten := 0, active := true), Reply(READY, f, Le32(0))))
  }

  function Answer(s: Session, f: Frame, offset: u32): Next {
    Continue(s, Reply(if offset <= s.bytesWritten then ACK else NACK, f, Le32(s.bytesWritten)))
  }

  /** DATA.  A block at the write position is programmed; any other valid block is only answered. */
  function HandleData(j: Pages, flash: seq<u8>, s: Session, f: Frame, fault: StepFault): Handled
    requires Sized(j, flash) && |f.payload| >= 4
  {
    var offset, data := Load32(f.payload, 0), f.payload[4..];
    if |data| >= 0x1_0000 || !DataAccepted(s.header.imageSize, offset, |data|) then Refuse(j, flash, s, f)
    else if offset != s.bytesWritten || offset + |data| > REGION then Handled(j, flash, Answer(s, f, offset))
    else if fault.flash.ProgramStops? && |fault.flash.left| == |data| then
      var flash1 := Replaced(flash, offset, fault.flash.left);
      if fault.flash.powerLost then Handled(j, flash1, Dark) else Handled(j, flash1, Answer(s, f, offset))
    else
      Handled(j, Programmed(flash, offset, data), Answer(s.(bytesWritten := offset + |data|), f, offset))
  }

  predicate EndAccepted(flash: seq<u8>, s: Session) {
    && s.bytesWritten == s.header.imageSize
    && ImageCrcMatches(flash, s.header.imageSize, s.header.imageCrc32)
  }

  function Installed(s: Session): Metadata {
    Metadata(STATE_VALID, s.header.imageSize, s.header.imageCrc32, s.header.firmwareVersion, s.role, 0, 0, 0)
  }

  /** The common end of END and SET_ROLE: record, answer, reset. */
  function Commit(j: Pages, flash: seq<u8>, s: Session, f: Frame, fault: StepFault): Handled
    requires Sized(j, flash) && FaultShape(fault)
  {
    var (j1, r) := Append(j, s.metadata, fault.journal);
    match r
    case PowerLost => Handled(j1, flash, Dark)
    case Failed => Refuse(j1, flash, s, f)
    case Appended => Handled(j1, flash, Reboot(Reply(COMPLETE, f, [])))
  }

  predicate SetRoleAccepted(flash: seq<u8>, s: Session, f: Frame)
    requires |flash| == REGION
  {
    |f.payload| == 4 && IsValidAppRole(Load32(f.payload, 0)) && IsApplicationImageValid(s.metadata, flash)
  }

  /** One round of runFirmwareUpdate. */
  function Handle(j: Pages, flash: seq<u8>, s: Session, f: Frame, fault: StepFault): Handled
    requires Sized(j, flash) && FaultShape(fault)
  {
    if f.kind == HELLO && f.payload == [] then
      Handled(j, flash, Continue(s, Reply(INFO, f, InfoPayload(s.metadata))))
    else if f.kind == BEGIN && |f.payload| == HEADER_SIZE + 4 then HandleBegin(j, flash, s, f, fault)
    else if f.kind == DATA && s.active && |f.payload| >= 4 then HandleData(j, flash, s, f, fault)
    else if f.kind == END && s.active && f.payload == [] && EndAccepted(flash, s) then
      Commit(j, flash, s.(metadata := Installed(s)), f, fault)
    else if f.kind == SET_ROLE && SetRoleAccepted(flash, s, f) then
      Commit(j, flash, s.(metadata := s.metadata.(state := STATE_VALID, appRole := Load32(f.payload, 0))), f, fault)
    else Refuse(j, flash, s, f)
  }

  // ----- boot, handoff and the application ----------------------------------------------------

  /** Handoff RAM and the start-up flags of the application. */
  datatype App = App(
    armed: bool, attemptId: u32, role: u32, rfReady: bool, cliReady: bool, confirmAttempted: bool)

  datatype Mode = Off | Updating(session: Session) | Running(app: App)

  datatype Device = Device(journal: Pages, flash: seq<u8>, mode: Mode)

  predicate Bootable(m: Metadata, flash: seq<u8>)
    requires |flash| == REGION
  {
    m.state == STATE_VALID && m.unconfirmedBootCount < BOOT_FAILURE_LIMIT && IsApplicationImageValid(m, flash)
  }

  function Attempt(m: Metadata): Metadata {
    m.(unconfirmedBootCount := Add32(m.unconfirmedBootCount, 1), bootAttemptId := Add32(m.bootAttemptId, 1))
  }

  function Loaded(j: Pages): Metadata {
    match Read(j) case None => DEFAULT case Some(m) => m
  }

  /** mainThread: decide, record the attempt, hand over. */
  function Boot(d: Device, fault: Fault): Device
    requires Sized(d.journal, d.flash)
  {
    var m := Loaded(d.journal);
    if !Bootable(m, d.flash) then d.(mode := Updating(NewSession(m))) else
    var (j, r) := Append(d.journal, Attempt(m), fault);
    Device(j, d.flash, match r
      case PowerLost => Off
      case Failed => Updating(NewSession(Attempt(m)))
      case Appended => Running(App(true, Attempt(m).bootAttemptId, m.appRole, false, false, false)))
  }

  /** Whether confirmApplicationBoot finds this attempt unconfirmed. */
  predicate Confirmable(j: Pages, attemptId: u32) {
    match Read(j)
    case None => false
    case Some(m) => m.bootAttemptId == attemptId && m.confirmedBootAttemptId != attemptId
  }

  function Confirmed(m: Metadata, attemptId: u32): Metadata {
    m.(confirmedBootAttemptId := attemptId,
       unconfirmedBootCount := if m.unconfirmedBootCount != 0 then m.unconfirmedBootCount - 1 else 0)
  }

  /** bl_confirm_boot through confirmApplicationBoot. */
  function Confirm(d: Device, fault: Fault): Device
    requires Sized(d.journal, d.flash) && d.mode.Running?
  {
    var app := d.mode.app;
    if !app.armed || !Confirmable(d.journal, app.attemptId) then d else
    var (j, r) := Append(d.journal, Confirmed(Read(d.journal).value, app.attemptId), fault);
    Device(j, d.flash, match r
      case PowerLost => Off
      case Failed => Running(app)
      case Appended => Running(app.(armed := false)))
  }

  /** updateReadiness: the second subsystem to become ready triggers the one confirmation. */
  function MarkReady(d: Device, rf: bool, fault: Fault): Device
    requires Sized(d.journal, d.flash) && d.mode.Running?
  {
    var app := if rf then d.mode.app.(rfReady := true) else d.mode.app.(cliReady := true);
    if app.rfReady && app.cliReady && !app.confirmAttempted then
      Confirm(d.(mode := Running(app.(confirmAttempted := true))), fault)
    else d.(mode := Running(app))
  }

  function Requested(j: Pages): Metadata { Loaded(j).(state := STATE_REQUESTED) }

  /** The CLI's bootloader command: request an update and, once it is recorded, reset. */
  function RequestUpdate(d: Device, fault: Fault): Device
    requires Sized(d.journal, d.flash) && d.mode.Running?
  {
    var (j, r) := Append(d.journal, Requested(d.journal), fault);
    Device(j, d.flash, if r == Failed then d.mode else Off)
  }

  // ----- steps --------------------------------------------------------------------------------

  datatype Step =
    | PowerCycle
    | DoBoot(fault: Fault)
    | DoReady(rf: bool, fault: Fault)
    | DoRequest(fault: Fault)
    | DoFrame(frame: Frame, flashFault: StepFault)

  function NextMode(next: Next): Mode {
    match next
    case Continue(s, _) => Updating(s)
    case _ => Off
  }

  predicate Enabled(d: Device, step: Step) {
    && Sized(d.journal, d.flash)
    && match step
       case PowerCycle => true
       case DoBoot(_) => d.mode.Off?
       case DoReady(_, _) => d.mode.Running?
       case DoRequest(_) => d.mode.Running?
       case DoFrame(_, fault) => d.mode.Updating? && FaultShape(fault)
  }

  function Apply(d: Device, step: Step): Device
    requires Enabled(d, step)
  {
    match step
    case PowerCycle => d.(mode := Off)
    case DoBoot(fault) => Boot(d, fault)
    case DoReady(rf, fault) => MarkReady(d, rf, fault)
    case DoRequest(fault) => RequestUpdate(d, fault)
    case DoFrame(f, fault) =>
      var h := Handle(d.journal, d.flash, d.mode.session, f, fault);
      Device(h.journal, h.flash, NextMode(h.next))
  }

  /** The metadata an append in this step would write, if it comes to one. */
  function Written(d: Device, step: Step): Option<Metadata>
    requires Enabled(d, step)
  {
    match step
    case PowerCycle => None
    case DoBoot(_) =>
      var m := Loaded(d.journal);
      if Bootable(m, d.flash) then Some(Attempt(m)) else None
    case DoReady(_, _) =>
      if Confirmable(d.journal, d.mode.app.attemptId)
      then Some(Confirmed(Read(d.journal).value, d.mode.app.attemptId)) else None
    case DoRequest(_) => Some(Requested(d.journal))
    case DoFrame(f, _) => WrittenByFrame(d.flash, d.mode.session, f)
  }

  function WrittenByFrame(flash: seq<u8>, s: Session, f: Frame): Option<Metadata>
    requires |flash| == REGION
  {
    if f.kind == BEGIN && |f.payload| == HEADER_SIZE + 4 then Some(DEFAULT)
    else if f.kind == END && s.active && f.payload == [] && EndAccepted(flash, s) then Some(Installed(s))
    else if f.kind == SET_ROLE && SetRoleAccepted(flash, s, f) then
      Some(s.metadata.(state := STATE_VALID, appRole := Load32(f.payload, 0)))
    else None
  }

  function JournalFault(step: Step): Fault {
    match step
    case PowerCycle => NoFault
    case DoBoot(fault) => fault
    case DoReady(_, fault) => fault
    case DoRequest(fault) => fault
    case DoFrame(_, fault) => fault.journal
  }

  /** The faults of a step are ones the flash can suffer. */
  ghost predicate LegalStep(d: Device, step: Step) {
    && Enabled(d, step)
    && (Written(d, step).Some? ==> Legal(d.journal, Written(d, step).value, JournalFault(step)))
    && (step.DoFrame? && step.frame.kind == DATA && |step.frame.payload| >= 4 ==>
          LegalProgram(d.flash, step.frame, step.flashFault.flash))
  }

  ghost predicate LegalProgram(flash: seq<u8>, f: Frame, fault: FlashFault)
    requires |f.payload| >= 4
  {
    var offset, data := Load32(f.payload, 0), f.payload[4..];
    fault.ProgramStops? && offset + |data| <= |flash| ==>
      PartlyDone(flash[offset..offset + |data|], data, fault.left)
  }
}
