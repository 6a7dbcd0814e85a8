/** The host's set_role operation against the device, over the same lossy link as flash. */
module RoleLink {
  import opened Words
  import opened Framing
  import opened Journal
  import opened Device
  import opened DeviceTheorems
  import opened Link

  datatype Progress = Asking | Succeeded | Failed

  datatype RoleHost = RoleHost(progress: Progress, tries: nat, waiting: bool)

  datatype RoleSystem = RoleSystem(host: RoleHost, device: Device, up: seq<Frame>, down: seq<Frame>)

  /** What the user asked for, and the number the request carries. */
  datatype RoleJob = RoleJob(role: u32, sequence: u16) {
    function Request(): Frame { Frame(SET_ROLE, sequence, Le32(role)) }

    predicate Answer(f: Frame) { f.sequence == sequence && f.kind == COMPLETE }
  }

  function Heard(job: RoleJob, h: RoleHost, f: Frame): RoleHost {
    if job.Answer(f) then RoleHost(Succeeded, h.tries, false) else h.(waiting := false)
  }

  /** The events of the link, with the host of set_role. */
  ghost predicate Possible(s: RoleSystem, e: Event) {
    match e
    case Send => s.host.progress.Asking? && !s.host.waiting && s.host.tries > 0
    case TimeOut => s.host.waiting
    case GiveUp => s.host.progress.Asking? && !s.host.waiting && s.host.tries == 0
    case Receive => s.host.progress.Asking? && s.host.waiting && s.down != []
    case LoseUp(i) => i < |s.up|
    case LoseDown(i) => i < |s.down|
    case Serve(fault) => s.up != [] && LegalStep(s.device, DoFrame(s.up[0], fault))
    case Other(step) => !step.DoFrame? && LegalStep(s.device, step)
  }

  ghost function Happen(job: RoleJob, s: RoleSystem, e: Event): RoleSystem
    requires Possible(s, e)
  {
    match e
    case Send => s.(host := s.host.(tries := s.host.tries - 1, waiting := true), up := s.up + [job.Request()])
    case TimeOut => s.(host := s.host.(waiting := false))
    case GiveUp => s.(host := s.host.(progress := Progress.Failed))
    case Receive => s.(host := Heard(job, s.host, s.down[0]), down := s.down[1..])
    case LoseUp(i) => s.(up := Without(s.up, i))
    case LoseDown(i) => s.(down := Without(s.down, i))
    case Serve(fault) =>
      var h := Handle(s.device.journal, s.device.flash, s.device.mode.session, s.up[0], fault);
      s.(device := Apply(s.device, DoFrame(s.up[0], fault)), up := s.up[1..], down := s.down + Replies(h.next))
    case Other(step) => s.(device := Apply(s.device, step))
  }

  // ----- the invariant ------------------------------------------------------------------------

  /** The newest record names the role; it is valid, or asks for the next update. */
  ghost predicate RoleOnRecord(role: u32, newest: Option<Metadata>) {
    && newest.Some? && newest.value.appRole == role
    && (newest.value.state == STATE_VALID || newest.value.state == STATE_REQUESTED)
  }

  /** In flight are this request and what is left of HELLO. */
  ghost predicate UpFrame(job: RoleJob, f: Frame) {
    f == job.Request() || (f.kind == HELLO && f.payload == [] && f.sequence != job.sequence)
  }

  ghost predicate RoleInv(job: RoleJob, s: RoleSystem) {
    && DeviceInv(s.device)
    && (forall i | 0 <= i < |s.up| :: UpFrame(job, s.up[i]))
    && (forall i | 0 <= i < |s.down| :: job.Answer(s.down[i]) ==> RoleOnRecord(job.role, Read(s.device.journal)))
    && (s.host.progress.Succeeded? ==> RoleOnRecord(job.role, Read(s.device.journal)))
  }

  lemma OtherKeepsRole(role: u32, d: Device, step: Step)
    requires DeviceInv(d) && !step.DoFrame? && LegalStep(d, step) && RoleOnRecord(role, Read(d.journal))
    ensures RoleOnRecord(role, Read(Apply(d, step).journal))
  {
    hide Ordered, NoValidBeyond, Append, Read, Legal, IsApplicationImageValid, ImageOk, StoredOk;
    var w := Written(d, step);
    if w.Some? {
      AppendReads(d.journal, w.value, JournalFault(step));
    }
  }

  lemma ServeKeepsRole(job: RoleJob, d: Device, f: Frame, fault: StepFault)
    requires DeviceInv(d) && LegalStep(d, DoFrame(f, fault)) && UpFrame(job, f)
    ensures var h := Handle(d.journal, d.flash, d.mode.session, f, fault);
      var newest := Read(Apply(d, DoFrame(f, fault)).journal);
      && (RoleOnRecord(job.role, Read(d.journal)) ==> RoleOnRecord(job.role, newest))
      && (forall i | 0 <= i < |Replies(h.next)| :: job.Answer(Replies(h.next)[i]) ==> RoleOnRecord(job.role, newest))
  {
    hide Ordered, NoValidBeyond, Append, Read, Legal, IsApplicationImageValid, ImageOk, StoredOk, Load32, Le32;
    Load32Le32(job.role);
    var w := Written(d, DoFrame(f, fault));
    if w.Some? {
      AppendReads(d.journal, w.value, fault.journal);
    }
  }

  lemma EventKeepsRole(job: RoleJob, s: RoleSystem, e: Event)
    requires RoleInv(job, s) && Possible(s, e)
    ensures RoleInv(job, Happen(job, s, e))
  {
    hide DeviceInv, LegalStep, Apply, Handle, RoleOnRecord, UpFrame, Read, Replies;
    match e {
      case Serve(fault) =>
        StepKeeps(s.device, DoFrame(s.up[0], fault));
        ServeKeepsRole(job, s.device, s.up[0], fault);
      case Other(step) =>
        StepKeeps(s.device, step);
        if RoleOnRecord(job.role, Read(s.device.journal)) {
          OtherKeepsRole(job.role, s.device, step);
        }
      case Send =>
        assert UpFrame(job, job.Request()) by { RequestIsUp(job); }
      case _ =>
    }
  }

  lemma RequestIsUp(job: RoleJob)
    ensures UpFrame(job, job.Request())
  {
  }

  // ----- runs ---------------------------------------------------------------------------------

  ghost predicate RoleEventAt(job: RoleJob, states: seq<RoleSystem>, events: seq<Event>, i: nat)
    requires |states| == |events| + 1 && i < |events|
  {
    Possible(states[i], events[i]) && states[i + 1] == Happen(job, states[i], events[i])
  }

  ghost predicate RoleRun(job: RoleJob, states: seq<RoleSystem>, events: seq<Event>) {
    && |states| == |events| + 1
    && forall i | 0 <= i < |events| :: RoleEventAt(job, states, events, i)
  }

  /** After connect: the device is in any state it can be in, and frames of earlier requests may still be
      on the wire. */
  ghost predicate RoleStarts(job: RoleJob, s: RoleSystem) {
    && DeviceInv(s.device) && s.host == RoleHost(Asking, FRAME_RETRIES, false)
    && (forall i | 0 <= i < |s.up| :: s.up[i].kind == HELLO && s.up[i].payload == [] && s.up[i].sequence != job.sequence)
    && (forall i | 0 <= i < |s.down| :: s.down[i].sequence != job.sequence)
  }

  lemma {:induction false} RoleRunsKeep(job: RoleJob, states: seq<RoleSystem>, events: seq<Event>, k: nat)
    requires RoleRun(job, states, events) && RoleStarts(job, states[0]) && k <= |events|
    ensures RoleInv(job, states[k])
    decreases k
  {
    hide Possible, Happen, DeviceInv, RoleOnRecord;
    if k > 0 {
      RoleRunsKeep(job, states, events, k - 1);
      assert RoleEventAt(job, states, events, k - 1);
      EventKeepsRole(job, states[k - 1], events[k - 1]);
    }
  }

  /** The operation's promise, over every run with losses, repeats, resets and flash faults: if the host
      reports success, the newest record names the role, and a valid one describes the image that is
      in flash. */
  lemma SetRoleSucceeds(job: RoleJob, states: seq<RoleSystem>, events: seq<Event>)
    requires RoleRun(job, states, events) && RoleStarts(job, states[0])
    requires states[|events|].host.progress == Succeeded
    ensures var d := states[|events|].device;
      && RoleOnRecord(job.role, Read(d.journal))
      && ImageOk(Read(d.journal), d.flash)
  {
    hide Inv, Read, ImageOk, RoleStarts, RoleEventAt;
    RoleRunsKeep(job, states, events, |events|);
  }

  // ----- completion ---------------------------------------------------------------------------

  const WORKS := StepFault(NoFault, FlashOk)

  /** What the device makes of the request when nothing fails: COMPLETE for a good image and one of the
      three roles, ERROR otherwise. */
  lemma RoleServed(job: RoleJob, d: Device)
    requires DeviceInv(d) && d.mode.Updating?
    ensures LegalStep(d, DoFrame(job.Request(), WORKS))
    ensures var good := job.role <= 2 && IsApplicationImageValid(d.mode.session.metadata, d.flash);
      Replies(Handle(d.journal, d.flash, d.mode.session, job.Request(), WORKS).next)
      == [Frame(if good then COMPLETE else ERROR, job.sequence, [])]
  {
    hide Ordered, NoValidBeyond, Append, Read, IsApplicationImageValid, Load32, Le32, ImageOk, StoredOk;
    Load32Le32(job.role);
    AppendWithoutFault(d.journal, d.mode.session.metadata.(state := STATE_VALID, appRole := job.role));
  }

  const ASKED: seq<Event> := [Send, Serve(WORKS), Receive]

  /** Without losses and faults one round decides: the host succeeds exactly if the device has a good image
      and the role is one of the three. */
  lemma LosslessSetRole(job: RoleJob, s: RoleSystem) returns (states: seq<RoleSystem>)
    requires RoleStarts(job, s) && s.up == [] && s.down == [] && s.device.mode.Updating?
    ensures RoleRun(job, states, ASKED) && states[0] == s && |s.device.flash| == REGION
    ensures states[3].host.progress.Succeeded? <==>
      job.role <= 2 && IsApplicationImageValid(s.device.mode.session.metadata, s.device.flash)
    ensures states[3].host.progress.Succeeded? || states[3].host == RoleHost(Asking, FRAME_RETRIES - 1, false)
  {
    hide DeviceInv, LegalStep, Apply, Handle, IsApplicationImageValid, Le32;
    RoleServed(job, s.device);
    FlashSized(s.device);
    var s1 := Happen(job, s, Send);
    var s2 := Happen(job, s1, Serve(WORKS));
    var s3 := Happen(job, s2, Receive);
    states := [s, s1, s2, s3];
    assert RoleEventAt(job, states, ASKED, 0);
    assert RoleEventAt(job, states, ASKED, 1);
    assert RoleEventAt(job, states, ASKED, 2);
  }

  lemma FlashSized(d: Device)
    requires DeviceInv(d)
    ensures |d.flash| == REGION
  {
    hide Inv, Read, ImageOk, StoredOk;
  }
}
