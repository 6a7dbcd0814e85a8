/** The updater as it runs: runFirmwareUpdate with its flash changed in place. */
module Bootloader {
  import opened Words
  import opened Crc
  import opened Framing
  import opened Journal
  import opened MetadataFlash
  import opened Package
  import opened Device

  /** mainThread: decides between the updater and the application, and never hands over before the
      attempt is on record. */
  method MainThread(records: Flash, application: array<u8>, fault: Fault) returns (mode: Mode)
    requires records.Valid() && application.Length == REGION
    requires fault.AtErase? ==> |fault.page| == SLOTS
    modifies records.primary, records.secondary
    ensures Device(records.Stored(), application[..], mode)
         == Boot(Device(old(records.Stored()), application[..], Off), fault)
    ensures mode.Running? ==>
              && Read(old(records.Stored())).Some?
              && Append(old(records.Stored()), Attempt(Read(old(records.Stored())).value), fault).1 == Appended
  {
    hide Append, Read, IsApplicationImageValid;
    var stored := records.ReadBootMetadata();
    var metadata := if stored.Some? then stored.value else DEFAULT;
    if metadata.state != STATE_VALID || metadata.unconfirmedBootCount >= BOOT_FAILURE_LIMIT
       || !IsApplicationImageValid(metadata, application[..]) {
      return Updating(NewSession(metadata));
    }
    metadata := metadata.(unconfirmedBootCount := Add32(metadata.unconfirmedBootCount, 1),
                          bootAttemptId := Add32(metadata.bootAttemptId, 1));
    var recorded := records.AppendMetadataRecord(metadata, fault);
    match recorded {
      case PowerLost => mode := Off;
      case Failed => mode := Updating(NewSession(metadata));
      case Appended =>
        mode := Running(App(true, metadata.bootAttemptId, metadata.appRole, false, false, false));
    }
  }

  /** confirmApplicationBoot: refuses without touching flash unless the newest record names this
      attempt and has not confirmed it. */
  method ConfirmApplicationBoot(records: Flash, attemptId: u32, fault: Fault) returns (r: Option<Outcome>)
    requires records.Valid()
    requires fault.AtErase? ==> |fault.page| == SLOTS
    modifies records.primary, records.secondary
    ensures r.None? <==> !Confirmable(old(records.Stored()), attemptId)
    ensures r.None? ==> records.Stored() == old(records.Stored())
    ensures r.Some? ==>
      (records.Stored(), r.value)
      == Append(old(records.Stored()), Confirmed(Read(old(records.Stored())).value, attemptId), fault)
  {
    hide Append, Read;
    var stored := records.ReadBootMetadata();
    if stored.None? || stored.value.bootAttemptId != attemptId
       || stored.value.confirmedBootAttemptId == attemptId {
      return None;
    }
    var metadata := stored.value.(confirmedBootAttemptId := attemptId);
    if metadata.unconfirmedBootCount != 0 {
      metadata := metadata.(unconfirmedBootCount := metadata.unconfirmedBootCount - 1);
    }
    var recorded := records.AppendMetadataRecord(metadata, fault);
    r := Some(recorded);
  }

  /** The application's start-up code: its readiness flags and the handoff it was given. */
  class Application {
    const records: Flash
    var magic: bool
    var bootId: u32
    var appRole: u32
    var rfReady: bool
    var cliReady: bool
    var bootConfirmationAttempted: bool

    constructor (records: Flash, handoff: App)
      ensures this.records == records && State() == handoff
    {
      this.records := records;
      magic, bootId, appRole := handoff.armed, handoff.attemptId, handoff.role;
      rfReady, cliReady, bootConfirmationAttempted := handoff.rfReady, handoff.cliReady, handoff.confirmAttempted;
    }

    function State(): App
      reads this
    {
      App(magic, bootId, appRole, rfReady, cliReady, bootConfirmationAttempted)
    }

    /** bl_confirm_boot: the handoff is spent once its attempt is confirmed on record. */
    method ConfirmBoot(application: seq<u8>, fault: Fault) returns (lost: bool)
      requires records.Valid() && |application| == REGION
      requires fault.AtErase? ==> |fault.page| == SLOTS
      modifies this`magic, records.primary, records.secondary
      ensures Device(records.Stored(), application, if lost then Off else Running(State()))
           == Confirm(Device(old(records.Stored()), application, Running(old(State()))), fault)
    {
      hide Append, Confirmable;
      if magic {
        var confirmed := ConfirmApplicationBoot(records, bootId, fault);
        if confirmed == Some(Appended) {
          magic := false;
        }
        return confirmed == Some(PowerLost);
      }
      return false;
    }

    /** updateReadiness: whichever subsystem reports last triggers the one confirmation. */
    method UpdateReadiness(isRfReady: bool, application: seq<u8>, fault: Fault) returns (lost: bool)
      requires records.Valid() && |application| == REGION
      requires fault.AtErase? ==> |fault.page| == SLOTS
      modifies this, records.primary, records.secondary
      ensures Device(records.Stored(), application, if lost then Off else Running(State()))
           == MarkReady(Device(old(records.Stored()), application, Running(old(State()))), isRfReady, fault)
      ensures old(bootConfirmationAttempted) ==> records.Stored() == old(records.Stored())
    {
      hide Confirm;
      if isRfReady {
        rfReady := true;
      } else {
        cliReady := true;
      }
      lost := false;
      if rfReady && cliReady && !bootConfirmationAttempted {
        bootConfirmationAttempted := true;
        lost := ConfirmBoot(application, fault);
      }
    }
  }

  class Updater {
    const records: Flash
    const application: array<u8>
    var metadata: Metadata
    var packageHeader: Header
    var requestedRole: u32
    var bytesWritten: u32
    var updateActive: bool

    constructor (records: Flash, application: array<u8>, m: Metadata)
      requires records.Valid() && application.Length == REGION
      ensures Valid() && State() == NewSession(m)
      ensures this.records == records && this.application == application
    {
      this.records, this.application := records, application;
      metadata, packageHeader, requestedRole, bytesWritten, updateActive := m, NO_HEADER, 0, 0, false;
    }

    ghost predicate Valid() {
      records.Valid() && application.Length == REGION
    }

    function State(): Session
      reads this
    {
      Session(metadata, packageHeader, requestedRole, bytesWritten, updateActive)
    }

    /** eraseApplicationFlash: page by page, stopping at the first failure. */
    method EraseApplicationFlash(fault: FlashFault) returns (failed: bool)
      requires Valid()
      requires fault.EraseStops? ==> fault.page < SLOT_PAGES && |fault.left| == PAGE_SIZE
      modifies application
      ensures failed == fault.EraseStops?
      ensures application[..] == EraseApplication(old(application[..]), fault)
    {
      ghost var was := application[..];
      for page := 0 to SLOT_PAGES
        invariant fault.EraseStops? ==> page <= fault.page
        invariant application[..PAGE_SIZE * page] == ErasedBytes(PAGE_SIZE * page)
        invariant application[PAGE_SIZE * page..] == was[PAGE_SIZE * page..]
      {
        var stops := fault.EraseStops? && page == fault.page;
        WritePage(page, if stops then fault.left else ErasedBytes(PAGE_SIZE));
        if stops {
          assert application[..] == application[..PAGE_SIZE * page]
                                  + application[PAGE_SIZE * page..PAGE_SIZE * (page + 1)]
                                  + application[PAGE_SIZE * (page + 1)..];
          return true;
        }
        assert application[..PAGE_SIZE * (page + 1)]
            == application[..PAGE_SIZE * page] + application[PAGE_SIZE * page..PAGE_SIZE * (page + 1)];
        assert was[PAGE_SIZE * (page + 1)..] == was[PAGE_SIZE * page..][PAGE_SIZE..];
      }
      assert application[..] == application[..SLOT_SIZE] + application[SLOT_SIZE..];
      return false;
    }

    method WritePage(page: nat, bytes: seq<u8>)
      requires Valid() && page < SLOT_PAGES && |bytes| == PAGE_SIZE
      modifies application
      ensures application[..PAGE_SIZE * page] == old(application[..PAGE_SIZE * page])
      ensures application[PAGE_SIZE * page..PAGE_SIZE * (page + 1)] == bytes
      ensures application[PAGE_SIZE * (page + 1)..] == old(application[PAGE_SIZE * page..])[PAGE_SIZE..]
    {
      forall i | 0 <= i < PAGE_SIZE {
        application[PAGE_SIZE * page + i] := bytes[i];
      }
    }

    /** FlashProgram on application flash; it fails without effect behind the end of flash. */
    method FlashProgram(data: seq<u8>, offset: u32, fault: FlashFault) returns (failed: bool)
      requires Valid()
      modifies application
      ensures failed == (offset + |data| > REGION || (fault.ProgramStops? && |fault.left| == |data|))
      ensures application[..] ==
        if offset + |data| > REGION then old(application[..])
        else if failed then Replaced(old(application[..]), offset, fault.left)
        else Programmed(old(application[..]), offset, data)
    {
      if offset + |data| > REGION {
        return true;
      }
      failed := fault.ProgramStops? && |fault.left| == |data|;
      var was := application[..];
      if failed {
        WriteBytes(offset, fault.left);
      } else {
        WriteBytes(offset, seq(|data|, i requires 0 <= i < |data| => var b: u8 := And(was[offset + i], data[i]); b));
      }
    }

    method WriteBytes(offset: nat, bytes: seq<u8>)
      requires Valid() && offset + |bytes| <= REGION
      modifies application
      ensures application[..] == Replaced(old(application[..]), offset, bytes)
    {
      ghost var was := application[..];
      for i := 0 to |bytes|
        invariant application[..] == Replaced(was, offset, bytes[..i])
      {
        assert bytes[..i + 1] == bytes[..i] + [bytes[i]];
        application[offset + i] := bytes[i];
        assert application[..] == Replaced(was, offset, bytes[..i])[offset + i := bytes[i]];
      }
      assert bytes[..|bytes|] == bytes;
    }

    method Begin(f: Frame, fault: StepFault) returns (next: Next)
      requires Valid() && FaultShape(fault) && |f.payload| == HEADER_SIZE + 4
      modifies this, application, records.primary, records.secondary
      ensures Handled(records.Stored(), application[..], next)
           == HandleBegin(old(records.Stored()), old(application[..]), old(State()), f, fault)
      ensures next.Continue? ==> State() == next.session
    {
      hide Append, EraseApplication, IsValidPackageHeader, LoadHeader;
      packageHeader := LoadHeader(f.payload);
      requestedRole := Load32(f.payload, HEADER_SIZE);
      if !IsValidPackageHeader(packageHeader) || !IsValidAppRole(requestedRole) {
        return Continue(State(), Reply(ERROR, f, []));
      }
      metadata := DEFAULT;
      var recorded := records.AppendMetadataRecord(metadata, fault.journal);
      if recorded == PowerLost {
        return Dark;
      } else if recorded == Failed {
        return Continue(State(), Reply(ERROR, f, []));
      }
      var failed := EraseApplicationFlash(fault.flash);
      if failed {
        return if fault.flash.powerLost then Dark else
          Continue(State(), Reply(ERROR, f, []));
      }
      bytesWritten := 0;
      updateActive := true;
      next := Continue(State(), Reply(READY, f, Le32(0)));
    }

    method Data(f: Frame, fault: StepFault) returns (next: Next)
      requires Valid() && |f.payload| >= 4
      modifies this`bytesWritten, application
      ensures Handled(records.Stored(), application[..], next)
           == HandleData(old(records.Stored()), old(application[..]), old(State()), f, fault)
      ensures next.Continue? ==> State() == next.session
    {
      hide Programmed, Replaced, Load32, Le32;
      var offset, data := Load32(f.payload, 0), f.payload[4..];
      if |data| >= 0x1_0000 || !DataAccepted(packageHeader.imageSize, offset, |data|) {
        return Continue(State(), Reply(ERROR, f, []));
      }
      if offset == bytesWritten {
        var failed := FlashProgram(data, offset, fault.flash);
        if failed && offset + |data| <= REGION && fault.flash.powerLost {
          return Dark;
        }
        if !failed {
          bytesWritten := offset + |data|;
        }
      }
      next := Answer(State(), f, offset);
    }

    /** Records the metadata, answers and resets. */
    method Finish(f: Frame, fault: StepFault) returns (next: Next)
      requires Valid() && FaultShape(fault)
      modifies records.primary, records.secondary
      ensures Handled(records.Stored(), application[..], next)
           == Commit(old(records.Stored()), application[..], State(), f, fault)
      ensures next.Continue? ==> State() == next.session
    {
      hide Append;
      var recorded := records.AppendMetadataRecord(metadata, fault.journal);
      match recorded {
        case PowerLost => next := Dark;
        case Failed =>
          next := Continue(State(), Reply(ERROR, f, []));
        case Appended => next := Reboot(Reply(COMPLETE, f, []));
      }
    }

    /** One round of runFirmwareUpdate: flash, session and answer are the specified ones, so the
        theorems about `Handle` are theorems about this code. */
    method Serve(f: Frame, fault: StepFault) returns (next: Next)
      requires Valid() && FaultShape(fault)
      modifies this, application, records.primary, records.secondary
      ensures Handled(records.Stored(), application[..], next)
           == Handle(old(records.Stored()), old(application[..]), old(State()), f, fault)
      ensures next.Continue? ==> State() == next.session
    {
      hide HandleBegin, HandleData, Commit, Load32, Le32, Crc32, IsApplicationImageValid;
      if f.kind == HELLO && f.payload == [] {
        next := Continue(State(), Reply(INFO, f, InfoPayload(metadata)));
      } else if f.kind == BEGIN && |f.payload| == HEADER_SIZE + 4 {
        next := Begin(f, fault);
      } else if f.kind == DATA && updateActive && |f.payload| >= 4 {
        next := Data(f, fault);
      } else if f.kind == END && updateActive && f.payload == [] && bytesWritten == packageHeader.imageSize
                && ImageCrcMatches(application[..], packageHeader.imageSize, packageHeader.imageCrc32) {
        metadata := Metadata(STATE_VALID, packageHeader.imageSize, packageHeader.imageCrc32,
                             packageHeader.firmwareVersion, requestedRole, 0, 0, 0);
        next := Finish(f, fault);
      } else if f.kind == SET_ROLE && |f.payload| == 4 && IsValidAppRole(Load32(f.payload, 0))
                && IsApplicationImageValid(metadata, application[..]) {
        metadata := metadata.(state := STATE_VALID, appRole := Load32(f.payload, 0));
        next := Finish(f, fault);
      } else {
        next := Continue(State(), Reply(ERROR, f, []));
      }
    }
  }
}
