/** The journal code as it runs: two flash pages changed in place by programming and erasing. */
module MetadataFlash {
  import opened Words
  import opened Journal

  method IsErasedRecord(record: Slot) returns (r: bool)
    ensures r == Erased(record)
  {
    for wordIndex := 0 to SLOT_WORDS
      invariant forall i | 0 <= i < wordIndex :: record[i] == ERASED_WORD
    {
      if record[wordIndex] != ERASED_WORD {
        return false;
      }
    }
    return true;
  }

  class Flash {
    const primary: array<Slot>
    const secondary: array<Slot>

    constructor ()
      ensures Valid() && fresh(primary) && fresh(secondary)
      ensures Stored() == Pages(ErasedPage(), ErasedPage())
    {
      primary := new Slot[SLOTS](i => ErasedSlot());
      secondary := new Slot[SLOTS](i => ErasedSlot());
      new;
      assert primary[..] == ErasedPage() && secondary[..] == ErasedPage();
    }

    ghost predicate Valid() {
      primary.Length == SLOTS && secondary.Length == SLOTS && primary != secondary
    }

    ghost function Stored(): Pages
      reads primary, secondary
    {
      Pages(primary[..], secondary[..])
    }

    function PageArray(id: PageId): array<Slot> {
      match id case Primary => primary case Secondary => secondary
    }

    method FindNewestRecordInPage(page: array<Slot>) returns (newest: Option<Slot>)
      ensures newest == Scan(None, page[..])
    {
      hide Journal.Valid, Erased, IsSequenceNewer;
      newest := None;
      var recordIndex := 0;
      while recordIndex < page.Length
        invariant 0 <= recordIndex <= page.Length
        invariant Scan(None, page[..]) == Scan(newest, page[recordIndex..])
      {
        var record := page[recordIndex];
        assert page[recordIndex..][0] == record && page[recordIndex..][1..] == page[recordIndex + 1..];
        var erased := IsErasedRecord(record);
        if erased {
          break;
        }
        if Journal.Valid(record)
           && (newest.None? || IsSequenceNewer(Sequence(record), Sequence(newest.value))
               || Sequence(record) == Sequence(newest.value)) {
          newest := Some(record);
        }
        recordIndex := recordIndex + 1;
      }
    }

    method FindNewestMetadataRecord() returns (newest: Option<Newest>)
      ensures newest == FindNewest(Stored())
    {
      hide Scan;
      var inPrimary := FindNewestRecordInPage(primary);
      var inSecondary := FindNewestRecordInPage(secondary);
      if inPrimary.None? {
        return if inSecondary.None? then None else Some(Newest(Secondary, inSecondary.value));
      }
      if inSecondary.None? {
        return Some(Newest(Primary, inPrimary.value));
      }
      if IsSequenceNewer(Sequence(inSecondary.value), Sequence(inPrimary.value)) {
        return Some(Newest(Secondary, inSecondary.value));
      }
      newest := Some(Newest(Primary, inPrimary.value));
    }

    method ReadBootMetadata() returns (m: Option<Metadata>)
      ensures m == Read(Stored())
    {
      hide FindNewest;
      var newest := FindNewestMetadataRecord();
      m := match newest case None => None case Some(n) => Some(Contents(n.slot));
    }

    method FindFirstErasedRecord(page: array<Slot>) returns (recordIndex: nat)
      ensures recordIndex == FirstErased(page[..])
    {
      hide Erased;
      recordIndex := 0;
      while recordIndex < page.Length
        invariant recordIndex <= page.Length
        invariant FirstErased(page[..]) == recordIndex + FirstErased(page[recordIndex..])
      {
        var erased := IsErasedRecord(page[recordIndex]);
        assert page[recordIndex..][1..] == page[recordIndex + 1..];
        if erased {
          return;
        }
        recordIndex := recordIndex + 1;
      }
    }

    method FlashSectorErase(id: PageId, fault: Fault) returns (failed: bool)
      requires Valid()
      requires fault.AtErase? ==> |fault.page| == SLOTS
      modifies PageArray(id)
      ensures failed == fault.AtErase?
      ensures PageArray(id)[..] == if failed then fault.page else ErasedPage()
    {
      var page := PageArray(id);
      forall i | 0 <= i < SLOTS {
        page[i] := if fault.AtErase? then fault.page[i] else ErasedSlot();
      }
      failed := fault.AtErase?;
      assert page[..] == if failed then fault.page else ErasedPage();
    }

    /** The two program calls of one record, body and then CRC word. */
    method ProgramRecord(id: PageId, recordIndex: nat, body: seq<u32>, fault: Fault) returns (r: Outcome)
      requires Valid() && recordIndex < SLOTS && |body| == BODY_WORDS
      modifies PageArray(id)
      ensures (Stored(), r) == Write(old(Stored()), id, recordIndex, body, fault)
    {
      hide RecordCrc;
      var page := PageArray(id);
      if fault.AtBody? {
        page[recordIndex] := fault.slot;
        return Stopped(fault.powerLost);
      }
      page[recordIndex] := body + [ERASED_WORD];
      if fault.AtCrc? {
        page[recordIndex] := fault.slot;
        assert page[..] == old(page[..])[recordIndex := fault.slot];
        return Stopped(fault.powerLost);
      }
      page[recordIndex] := Complete(body);
      assert page[..] == old(page[..])[recordIndex := Complete(body)];
      r := Appended;
    }

    /** appendMetadataRecord: the flash contents it leaves are the specified ones, so everything
        proved about `Append` holds of this code. */
    method AppendMetadataRecord(m: Metadata, fault: Fault) returns (r: Outcome)
      requires Valid()
      requires fault.AtErase? ==> |fault.page| == SLOTS
      modifies primary, secondary
      ensures (Stored(), r) == Append(old(Stored()), m, fault)
    {
      hide Scan, FirstErased, Write, Body, Choose, ErasedPage;
      ghost var p := Stored();
      var newest := FindNewestMetadataRecord();
      var sequence := if newest.Some? then Add32(Sequence(newest.value.slot), 1) else 1;
      var body := Body(sequence, m);
      var recordIndex := FindFirstErasedRecord(primary);
      if recordIndex < SLOTS {
        r := ProgramRecord(Primary, recordIndex, body, fault);
        return;
      }
      recordIndex := FindFirstErasedRecord(secondary);
      if recordIndex < SLOTS {
        r := ProgramRecord(Secondary, recordIndex, body, fault);
        return;
      }
      var victim := if newest.Some? && newest.value.page == Secondary then Primary else Secondary;
      assert victim == Victim(p);
      var failed := FlashSectorErase(victim, fault);
      if failed {
        return Stopped(fault.powerLost);
      }
      assert Stored() == p.With(victim, ErasedPage());
      r := ProgramRecord(victim, 0, body, fault);
    }
  }
}
