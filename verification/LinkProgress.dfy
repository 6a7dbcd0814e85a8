/** On a link that loses nothing, and flash that does not fail, the operation completes. */
module LinkProgress {
  import opened Words
  import opened Crc
  import opened Framing
  import opened Journal
  import opened Package
  import opened Device
  import opened DeviceTheorems
  import opened SessionTheorems
  import opened Link
  import opened LinkTheorems

  /** Host and updater between two requests. */
  datatype Dialogue = Dialogue(phase: Phase, journal: Pages, flash: seq<u8>, session: Session)

  const NO_FAULT := StepFault(NoFault, FlashOk)

  predicate Ready(job: Job, c: Dialogue) {
    c.phase.Working() && PhaseOk(job, c.phase) && Sized(c.journal, c.flash)
  }

  /** One request and its answer. */
  function Exchange(job: Job, sequence: u16, c: Dialogue): Dialogue
    requires Ready(job, c)
  {
    var f := Frame(RequestKind(c.phase), sequence, RequestPayload(job, c.phase));
    var h := Handle(c.journal, c.flash, c.session, f, NO_FAULT);
    match h.next
    case Continue(s, reply) =>
      Dialogue(if Expected(c.phase, reply.kind) then Advance(job, c.phase, reply.kind, reply.payload) else GaveUp,
               h.journal, h.flash, s)
    case Reboot(reply) =>
      Dialogue(if Expected(c.phase, reply.kind) then Advance(job, c.phase, reply.kind, reply.payload) else GaveUp,
               h.journal, h.flash, c.session)
    case Dark => c.(phase := GaveUp)
  }

  /** Requests needed from a phase on: one for each block that is left, and END. */
  function Remaining(job: Job, phase: Phase): nat
    requires phase.Working() && PhaseOk(job, phase)
  {
    match phase
    case Beginning => 2 + (|job.info.image| + CHUNK_SIZE - 1) / CHUNK_SIZE
    case Sending(offset) => 1 + (|job.info.image| - offset + CHUNK_SIZE - 1) / CHUNK_SIZE
    case Ending => 1
  }

  ghost predicate ValidJob(job: Job) {
    && JobOk(job)
    && IsValidPackageHeader(job.info.header) && IsValidAppRole(job.role)
    && job.info.header.imageCrc32 == Crc32(job.info.image)
  }

  /** The block at `offset` is expected, or was written already and its answer lost. */
  predicate Writing(image: seq<u8>, offset: nat, written: nat)
    requires offset <= |image|
  {
    offset % 4 == 0 && (written == offset || written == offset + |Chunk(image, offset)|)
  }

  /** The dialogue is under way: what was sent so far is in flash. */
  ghost predicate UnderWay(job: Job, c: Dialogue) {
    && Ready(job, c)
    && (c.phase.Beginning? || (c.session.active && Ours(job, c.flash, c.session, false)))
    && (c.phase.Sending? ==> Writing(job.info.image, c.phase.offset, c.session.bytesWritten))
    && (c.phase.Ending? ==> c.session.bytesWritten == |job.info.image|)
  }

  /** The host is done and the image is in flash. */
  ghost predicate Finished(job: Job, c: Dialogue) {
    && c.phase == Done
    && |job.info.image| <= |c.flash|
    && c.flash[..|job.info.image|] == job.info.image
  }

  lemma AnswerLoads(n: u32)
    ensures |Le32(n)| == 4 && Load32(Le32(n), 0) == n
  {
    Load32Le32(n);
  }

  /** The phase after an answered request of an operation under way. */
  function Following(job: Job, phase: Phase): Phase
    requires phase.Working() && PhaseOk(job, phase) && JobOk(job)
  {
    match phase
    case Beginning => NextBlock(job, 0)
    case Sending(offset) => NextBlock(job, offset + |Chunk(job.info.image, offset)|)
    case Ending => Done
  }

  lemma ExchangeBegin(job: Job, sequence: u16, c: Dialogue)
    requires ValidJob(job) && UnderWay(job, c) && c.phase.Beginning?
    ensures var c' := Exchange(job, sequence, c);
      && UnderWay(job, c') && Remaining(job, c'.phase) == Remaining(job, c.phase) - 1
      && c'.phase == Following(job, c.phase)
  {
    hide Append, LoadHeader, Load32, Le32, IsValidPackageHeader, Toward, Crc32;
    var f := Frame(BEGIN, sequence, RequestPayload(job, c.phase));
    BeginFields(job, f);
    AppendWithoutFault(c.journal, DEFAULT);
    AnswerLoads(0);
    var h := HandleBegin(c.journal, c.flash, c.session, f, NO_FAULT);
    ReadyIsClean(c.journal, c.flash, c.session, f, NO_FAULT);
    ErasedIsToward(h.flash, job.info.image);
  }

  lemma BlockCount(n: int, k: int)
    requires 0 <= k < n
    ensures var m := if k + CHUNK_SIZE <= n then CHUNK_SIZE else n - k;
      (n - k + CHUNK_SIZE - 1) / CHUNK_SIZE == 1 + (n - (k + m) + CHUNK_SIZE - 1) / CHUNK_SIZE
  {
  }

  lemma ExchangeData(job: Job, sequence: u16, c: Dialogue)
    requires ValidJob(job) && UnderWay(job, c) && c.phase.Sending?
    ensures var c' := Exchange(job, sequence, c);
      && UnderWay(job, c') && !c'.phase.Beginning? && Remaining(job, c'.phase) == Remaining(job, c.phase) - 1
      && c'.session.bytesWritten == c.phase.offset + |Chunk(job.info.image, c.phase.offset)|
      && c'.phase == Following(job, c.phase)
  {
    hide Load32, Le32, IsValidPackageHeader, Toward, Crc32, Programmed;
    var image, offset := job.info.image, c.phase.offset;
    var payload := RequestPayload(job, c.phase);
    assert payload[0..4] == Le32(offset) && payload[4..] == Chunk(image, offset);
    LoadStored32(payload, 0, offset);
    HeaderWords(job.info.header);
    ChunksAccepted(image, offset);
    if c.session.bytesWritten == offset {
      TowardProgrammed(c.flash, image, offset);
    }
    AnswerLoads(offset + |Chunk(image, offset)|);
    BlockCount(|image|, offset);
  }

  lemma HeaderWords(h: Header)
    requires IsValidPackageHeader(h)
    ensures h.imageSize % 4 == 0
  {
    hide Crc32;
  }

  lemma ExchangeEnd(job: Job, sequence: u16, c: Dialogue)
    requires ValidJob(job) && UnderWay(job, c) && c.phase.Ending?
    ensures Finished(job, Exchange(job, sequence, c))
  {
    hide Append, IsValidPackageHeader, And, Crc32;
    assert job.info.image[..|job.info.image|] == job.info.image;
    assert EndAccepted(c.flash, c.session);
    AppendWithoutFault(c.journal, Installed(c.session));
  }

  /** Exchanges until the host stops, with consecutive sequence numbers. */
  function Conversation(job: Job, sequence: u16, c: Dialogue, n: nat): Dialogue
    requires Sized(c.journal, c.flash)
    decreases n
  {
    if n == 0 || !Ready(job, c) then c
    else
      var c' := Exchange(job, sequence, c);
      if Sized(c'.journal, c'.flash) then Conversation(job, (sequence + 1) % 0x1_0000, c', n - 1) else c'
  }

  /** Every valid job on every device in update mode: after one BEGIN, one DATA per 128-byte block
      and one END the host is done and the image is in flash.  So success is reachable, and the
      number of requests is exact. */
  lemma {:induction false} LosslessFlashCompletes(job: Job, sequence: u16, c: Dialogue)
    requires ValidJob(job) && UnderWay(job, c)
    ensures Finished(job, Conversation(job, sequence, c, Remaining(job, c.phase)))
    decreases Remaining(job, c.phase)
  {
    hide Exchange, ValidJob, Ours;
    var c' := Exchange(job, sequence, c);
    match c.phase {
      case Beginning =>
        ExchangeBegin(job, sequence, c);
        LosslessFlashCompletes(job, (sequence + 1) % 0x1_0000, c');
      case Sending(_) =>
        ExchangeData(job, sequence, c);
        LosslessFlashCompletes(job, (sequence + 1) % 0x1_0000, c');
      case Ending =>
        ExchangeEnd(job, sequence, c);
    }
  }
}
