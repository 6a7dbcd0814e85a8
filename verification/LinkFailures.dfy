/** Flash that fails under way: a block whose programming is reported as failed is sent again. */
module LinkFailures {
  import opened Words
  import opened Crc
  import opened Framing
  import opened Journal
  import opened Package
  import opened Device
  import opened Link
  import opened LinkTheorems
  import opened LinkProgress
  import opened LinkRetries

  // ----- one request --------------------------------------------------------------------------

  /** Nothing fails but programming, and power stays on. */
  predicate ProgramsOnly(fault: StepFault) {
    fault.journal.NoFault? && (fault.flash.FlashOk? || (fault.flash.ProgramStops? && !fault.flash.powerLost))
  }

  /** The next request makes the device program a block, and that fails. */
  ghost predicate FailsNext(s: System, fault: StepFault) {
    && s.host.phase.Sending? && s.device.mode.Updating?
    && s.device.mode.session.bytesWritten == s.host.phase.offset
    && fault.flash.ProgramStops?
  }

  ghost predicate RoundWith(job: Job, s: System, fault: StepFault, s1: System, s2: System, s3: System) {
    && Possible(job, s, Send) && s1 == Happen(job, s, Send)
    && Possible(job, s1, Serve(fault)) && s2 == Happen(job, s1, Serve(fault))
    && Possible(job, s2, Receive) && s3 == Happen(job, s2, Receive)
  }

  /** Where nothing is programmed such a fault changes nothing. */
  lemma FaultWithoutEffect(d: Device, f: Frame, fault: StepFault)
    requires d.mode.Updating? && Sized(d.journal, d.flash) && ProgramsOnly(fault)
    requires fault.flash.ProgramStops? && f.kind == DATA && |f.payload| >= 4 ==>
      Load32(f.payload, 0) != d.mode.session.bytesWritten
    ensures Handle(d.journal, d.flash, d.mode.session, f, fault) == Handle(d.journal, d.flash, d.mode.session, f, NO_FAULT)
  {
    hide Append, Load32, LoadHeader, IsValidPackageHeader, DataAccepted, EndAccepted, IsApplicationImageValid;
  }

  lemma RequestOffset(job: Job, h: Host)
    requires h.phase.Working() && PhaseOk(job, h.phase)
    ensures var f := Request(job, h);
      && (f.kind == DATA <==> h.phase.Sending?)
      && (h.phase.Sending? ==>
            && |f.payload| >= 4 && Load32(f.payload, 0) == h.phase.offset
            && f.payload[4..] == Chunk(job.info.image, h.phase.offset))
  {
    hide Load32, Le32;
    if h.phase.Sending? {
      var f := Request(job, h);
      assert f.payload[0..4] == Le32(h.phase.offset);
      LoadStored32(f.payload, 0, h.phase.offset);
    }
  }

  /** A request that does not fail has its ordinary outcome. */
  lemma OrdinaryRound(job: Job, s: System, fault: StepFault, s1: System, s2: System, s3: System)
    requires ValidJob(job) && Good(job, s) && ProgramsOnly(fault) && !FailsNext(s, fault)
    requires RoundWith(job, s, fault, s1, s2, s3)
    ensures s.host.phase.Ending? ==> Completed(job, s3)
    ensures !s.host.phase.Ending? ==>
      && Good(job, s3) && s3.host.tries == FRAME_RETRIES
      && Remaining(job, s3.host.phase) == Remaining(job, s.host.phase) - 1
  {
    hide ValidJob, Handle, RequestPayload, Ours, Exchange, Advance, Load32, LegalStep;
    var f := Request(job, s.host);
    RequestOffset(job, s.host);
    FaultWithoutEffect(s.device, f, fault);
    NoFaultIsLegal(s.device, f);
    ReplySequence(s.device, f, fault);
    ReplySequence(s.device, f, NO_FAULT);
    ExchangeGoesOn(job, s);
    var t1, t2, t3 := RoundIsExchange(job, s);
    assert t2 == s2;
  }

  /** What the device makes of a block whose programming fails. */
  lemma FailedServed(job: Job, d: Device, f: Frame, fault: StepFault, offset: u32)
    requires ValidJob(job) && ProgramsOnly(fault) && fault.flash.ProgramStops?
    requires LegalStep(d, DoFrame(f, fault)) && f.kind == DATA && |f.payload| >= 4 && Load32(f.payload, 0) == offset
    requires offset < |job.info.image| && offset % 4 == 0 && f.payload[4..] == Chunk(job.info.image, offset)
    requires d.mode.session.active && d.mode.session.bytesWritten == offset
    requires Ours(job, d.flash, d.mode.session, false)
    ensures var h := Handle(d.journal, d.flash, d.mode.session, f, fault);
      && h.journal == d.journal && |h.flash| == REGION
      && h.next == Continue(d.mode.session, Frame(ACK, f.sequence, Le32(offset)))
      && Ours(job, h.flash, d.mode.session, false)
  {
    hide Load32, Le32, IsValidPackageHeader, Toward, Crc32, Replaced, PartlyDone, Written;
    HeaderWords(job.info.header);
    ChunksAccepted(job.info.image, offset);
    PartLength(d.flash[offset..offset + |Chunk(job.info.image, offset)|], Chunk(job.info.image, offset), fault.flash.left);
    StoppedExactly(d.flash, job.info.image, offset, fault.flash.left);
  }

  lemma PartLength(before: seq<u8>, data: seq<u8>, left: seq<u8>)
    requires PartlyDone(before, data, left)
    ensures |left| == |data|
  {
    hide And;
  }

  /** A request that fails is made again, from the same position, with all its retries. */
  lemma FailedRound(job: Job, s: System, fault: StepFault, s1: System, s2: System, s3: System)
    requires ValidJob(job) && Good(job, s) && ProgramsOnly(fault) && FailsNext(s, fault)
    requires RoundWith(job, s, fault, s1, s2, s3)
    ensures Good(job, s3) && s3.host == Host(s.host.index + 1, s.host.phase, FRAME_RETRIES, false)
  {
    hide ValidJob, Handle, RequestPayload, Ours, Load32, Le32, LegalStep;
    var f, offset := Request(job, s.host), s.host.phase.offset;
    RequestOffset(job, s.host);
    FailedServed(job, s.device, f, fault, offset);
    ReplySequence(s.device, f, fault);
    AnswerLoads(offset);
  }

  // ----- whole operations ---------------------------------------------------------------------

  /** One request after the other, nothing lost, request number k served with fault number k. */
  function RoundsOf(faults: seq<StepFault>): (events: seq<Event>)
    ensures |events| == 3 * |faults|
  {
    seq(3 * |faults|, i requires 0 <= i < 3 * |faults| =>
      if i % 3 == 0 then Send else if i % 3 == 1 then Serve(faults[i / 3]) else Receive)
  }

  /** Failed programs among the first k requests. */
  ghost function Failures(states: seq<System>, faults: seq<StepFault>, k: nat): nat
    requires |states| == 3 * |faults| + 1 && k <= |faults|
    decreases k
  {
    if k == 0 then 0
    else Failures(states, faults, k - 1) + (if FailsNext(states[3 * (k - 1)], faults[k - 1]) then 1 else 0)
  }

  lemma RoundAt(job: Job, states: seq<System>, faults: seq<StepFault>, k: nat)
    requires SystemRun(job, states, RoundsOf(faults)) && k < |faults|
    ensures RoundWith(job, states[3 * k], faults[k], states[3 * k + 1], states[3 * k + 2], states[3 * k + 3])
  {
    hide Possible, Happen;
    var events := RoundsOf(faults);
    assert EventAt(job, states, events, 3 * k);
    assert EventAt(job, states, events, 3 * k + 1);
    assert EventAt(job, states, events, 3 * k + 2);
    assert events[3 * k + 1] == Serve(faults[k]);
  }

  /** Every lossless run in which programs fail, wherever and however often, as long as power stays on:
      each request either fails and is made again or is one of those that were left. */
  lemma {:induction false} FailuresSurvived(job: Job, states: seq<System>, faults: seq<StepFault>, k: nat)
    requires SystemRun(job, states, RoundsOf(faults)) && k <= |faults|
    requires ValidJob(job) && Good(job, states[0])
    requires forall i | 0 <= i < |faults| :: ProgramsOnly(faults[i])
    ensures var left := Remaining(job, states[0].host.phase) + Failures(states, faults, k) - k;
      && left >= 0
      && (left == 0 ==> Completed(job, states[3 * k]))
      && (left > 0 ==> Good(job, states[3 * k]) && Remaining(job, states[3 * k].host.phase) == left)
    decreases k
  {
    hide ValidJob, EventAt, Ours, Remaining, RoundsOf, FailsNext, RoundWith;
    if k == 0 {
      LastRequest(job, states[0].host.phase);
    } else {
      var s, fault := states[3 * (k - 1)], faults[k - 1];
      FailuresSurvived(job, states, faults, k - 1);
      RoundAt(job, states, faults, k - 1);
      RoundWorks(job, s, fault, states[3 * k - 2], states[3 * k - 1], states[3 * k]);
      LastRequest(job, s.host.phase);
      if FailsNext(s, fault) {
        FailedRound(job, s, fault, states[3 * k - 2], states[3 * k - 1], states[3 * k]);
      } else {
        OrdinaryRound(job, s, fault, states[3 * k - 2], states[3 * k - 1], states[3 * k]);
      }
    }
  }

  lemma RoundWorks(job: Job, s: System, fault: StepFault, s1: System, s2: System, s3: System)
    requires RoundWith(job, s, fault, s1, s2, s3)
    ensures s.host.phase.Working()
  {
    hide Happen, LegalStep;
  }

  /** Such failures do happen: at every block, with everything an interrupted program can leave. */
  lemma FailureHappens(job: Job, s: System, left: seq<u8>) returns (s1: System, s2: System, s3: System)
    requires ValidJob(job) && Good(job, s) && s.host.tries > 0 && s.host.phase.Sending?
    requires s.device.mode.session.bytesWritten == s.host.phase.offset
    requires var data := Chunk(job.info.image, s.host.phase.offset);
      && s.host.phase.offset + |data| <= |s.device.flash|
      && PartlyDone(s.device.flash[s.host.phase.offset..s.host.phase.offset + |data|], data, left)
    ensures var fault := StepFault(NoFault, ProgramStops(left, false));
      FailsNext(s, fault) && RoundWith(job, s, fault, s1, s2, s3)
  {
    hide Handle, RequestPayload, Ours, Load32, Le32, PartlyDone, Written, ValidJob;
    var fault := StepFault(NoFault, ProgramStops(left, false));
    var f := Request(job, s.host);
    RequestOffset(job, s.host);
    FailedServed(job, s.device, f, fault, s.host.phase.offset);
    s1 := Happen(job, s, Send);
    s2 := Happen(job, s1, Serve(fault));
    s3 := Happen(job, s2, Receive);
  }

  /** For every package the device accepts, over every lossless run with failing programs: after one
      request for each block, one for each failure and two more flash has completed, the image is
      installed and on record. */
  lemma FlashSurvivesFailures(package: seq<u8>, role: u32, states: seq<System>, faults: seq<StepFault>)
    requires |states| == 3 * |faults| + 1 && Starts(package, role, states[0])
    requires states[0].up == [] && states[0].down == [] && states[0].device.mode.Updating?
    requires SystemRun(JobOf(package, role, false), states, RoundsOf(faults))
    requires IsValidPackageHeader(JobOf(package, role, false).info.header) && IsValidAppRole(role)
    requires forall i | 0 <= i < |faults| :: ProgramsOnly(faults[i])
    ensures var blocks := (|JobOf(package, role, false).info.image| + CHUNK_SIZE - 1) / CHUNK_SIZE;
      && |faults| <= blocks + Failures(states, faults, |faults|) + 2
      && (|faults| == blocks + Failures(states, faults, |faults|) + 2 ==>
            && Completed(JobOf(package, role, false), states[3 * |faults|])
            && Flashed(Parse(package).value, role, false, states[3 * |faults|]))
  {
    hide Parse, EventAt, IsValidPackageHeader, Ordered, NoValidBeyond, Crc32, RoundsOf, TagsOk, Tags, Flashed, Failures;
    var job := JobOf(package, role, false);
    ParsedHeaderOnDevice(package);
    FailuresSurvived(job, states, faults, |faults|);
    if states[3 * |faults|].host.phase == Done {
      FlashSucceeds(package, role, false, states, RoundsOf(faults));
    }
  }
}
