/** The host's flash operation against the device, over a serial link that keeps order but loses and
    corrupts frames in both directions.  A corrupted frame is rejected by the reader, so on this level
    it is lost as well; time-outs, resets and flash faults happen whenever they like. */
module Link {
  import opened Words
  import opened Framing
  import opened Package
  import opened Device

  const FRAME_RETRIES := 5

  /** What the user asked for, and whether the application may request an update by itself meanwhile. */
  datatype Job = Job(info: Info, role: u32, requests: bool)

  /** The request the host is working on. */
  datatype Phase = Beginning | Sending(offset: u32) | Ending | Done | GaveUp {
    predicate Working() { Beginning? || Sending? || Ending? }
  }

  /** Kind and payload of the request a phase makes. */
  function RequestKind(phase: Phase): u8
    requires phase.Working()
  {
    match phase case Beginning => BEGIN case Sending(_) => DATA case Ending => END
  }

  function RequestPayload(job: Job, phase: Phase): seq<u8>
    requires phase.Working() && (phase.Sending? ==> phase.offset <= |job.info.image|)
  {
    match phase
    case Beginning => job.info.header.Bytes() + Le32(job.role)
    case Sending(offset) => Le32(offset) + Chunk(job.info.image, offset)
    case Ending => []
  }

  predicate Expected(phase: Phase, kind: u8) {
    match phase
    case Beginning => kind == READY
    case Sending(_) => kind == ACK || kind == NACK
    case Ending => kind == COMPLETE
    case _ => false
  }

  function NextBlock(job: Job, offset: u32): Phase {
    if offset < |job.info.image| then Sending(offset) else Ending
  }

  /** What flash does with an acceptable response. */
  function Advance(job: Job, phase: Phase, kind: u8, answer: seq<u8>): Phase
    requires Expected(phase, kind)
  {
    match phase
    case Beginning =>
      if |answer| != 4 || Load32(answer, 0) != 0 then GaveUp else NextBlock(job, 0)
    case Sending(offset) =>
      if |answer| != 4 || (kind == NACK && Load32(answer, 0) > offset) then GaveUp
      else NextBlock(job, Load32(answer, 0))
    case Ending => Done
  }

  // ----- the system ---------------------------------------------------------------------------

  /** A frame in flight, with the number of the request it belongs to. */
  datatype Msg = Msg(tag: nat, frame: Frame)

  /** `index` numbers the current request; the wire carries it modulo 2^16.  `tries` is what is left
      of the retries, `waiting` tells whether the last transmission is still waiting for its answer. */
  datatype Host = Host(index: nat, phase: Phase, tries: nat, waiting: bool)

  datatype System = System(host: Host, device: Device, up: seq<Msg>, down: seq<Msg>, dirty: bool)

  function SequenceOf(tag: nat): u16 { tag % 0x1_0000 }

  predicate PhaseOk(job: Job, phase: Phase) {
    phase.Sending? ==> phase.offset < |job.info.image|
  }

  function Request(job: Job, h: Host): Frame
    requires h.phase.Working() && PhaseOk(job, h.phase)
  {
    Frame(RequestKind(h.phase), SequenceOf(h.index), RequestPayload(job, h.phase))
  }

  /** The next request, or the end. */
  function Follow(h: Host, phase: Phase): Host {
    if phase.Working() then Host(h.index + 1, phase, FRAME_RETRIES, false)
    else h.(phase := phase, waiting := false)
  }

  function Without<T>(s: seq<T>, i: nat): seq<T>
    requires i < |s|
  {
    s[..i] + s[i + 1..]
  }

  /** A BEGIN that fails while erasing leaves the session as it was but the slot in another state. */
  predicate EraseFailed(f: Frame, before: seq<u8>, h: Handled) {
    f.kind == BEGIN && h.next.Continue? && h.next.reply.kind == ERROR && h.flash != before
  }

  /** Flash is on its way to the image: the part written is there, and no bit that the rest needs
      has been cleared. */
  ghost predicate Toward(flash: seq<u8>, image: seq<u8>, written: nat) {
    && written <= |image| <= |flash|
    && flash[..written] == image[..written]
    && forall i | 0 <= i < |image| :: And(flash[i], image[i]) == image[i]
  }

  /** Whether the session has been led astray: by a failed erase that left flash in a state that is not
      on its way to the image.  The next READY starts afresh. */
  ghost function Astray(job: Job, dirty: bool, f: Frame, before: seq<u8>, h: Handled): bool {
    if h.next.Continue? && h.next.reply.kind == READY then false
    else if EraseFailed(f, before, h) then !Toward(h.flash, job.info.image, h.next.session.bytesWritten)
    else dirty
  }

  function Replies(next: Next): seq<Frame> {
    match next
    case Continue(_, reply) => [reply]
    case Reboot(reply) => [reply]
    case Dark => []
  }

  datatype Event =
    | Send
    | TimeOut
    | GiveUp
    | Receive
    | LoseUp(i: nat)
    | LoseDown(i: nat)
    | Serve(fault: StepFault)
    | Other(step: Step)

  ghost predicate Possible(job: Job, s: System, e: Event) {
    match e
    case Send => s.host.phase.Working() && PhaseOk(job, s.host.phase) && !s.host.waiting && s.host.tries > 0
    case TimeOut => s.host.waiting
    case GiveUp => s.host.phase.Working() && !s.host.waiting && s.host.tries == 0
    case Receive => s.host.phase.Working() && s.host.waiting && s.down != []
    case LoseUp(i) => i < |s.up|
    case LoseDown(i) => i < |s.down|
    case Serve(fault) => s.up != [] && LegalStep(s.device, DoFrame(s.up[0].frame, fault))
    case Other(step) => !step.DoFrame? && (step.DoRequest? ==> job.requests) && LegalStep(s.device, step)
  }

  /** The host reads the next response: an acceptable one ends the request, any other uses up the
      transmission. */
  function Received(job: Job, h: Host, f: Frame): Host {
    if f.sequence == SequenceOf(h.index) && Expected(h.phase, f.kind)
    then Follow(h, Advance(job, h.phase, f.kind, f.payload))
    else h.(waiting := false)
  }

  ghost function Served(job: Job, s: System, fault: StepFault): System
    requires s.up != [] && LegalStep(s.device, DoFrame(s.up[0].frame, fault))
  {
    var m, d := s.up[0], s.device;
    var h := Handle(d.journal, d.flash, d.mode.session, m.frame, fault);
    var replies := seq(|Replies(h.next)|, i requires 0 <= i < |Replies(h.next)| => Msg(m.tag, Replies(h.next)[i]));
    System(s.host, Apply(d, DoFrame(m.frame, fault)), s.up[1..], s.down + replies,
           Astray(job, s.dirty, m.frame, d.flash, h))
  }

  ghost function Happen(job: Job, s: System, e: Event): System
    requires Possible(job, s, e)
  {
    match e
    case Send =>
      s.(host := s.host.(tries := s.host.tries - 1, waiting := true),
         up := s.up + [Msg(s.host.index, Request(job, s.host))])
    case TimeOut => s.(host := s.host.(waiting := false))
    case GiveUp => s.(host := s.host.(phase := GaveUp))
    case Receive => s.(host := Received(job, s.host, s.down[0].frame), down := s.down[1..])
    case LoseUp(i) => s.(up := Without(s.up, i))
    case LoseDown(i) => s.(down := Without(s.down, i))
    case Serve(fault) => Served(job, s, fault)
    case Other(step) => s.(device := Apply(s.device, step))
  }
}
