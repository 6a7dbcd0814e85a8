/** The host tool as it runs: a sequence counter, and requests repeated until an acceptable response
    arrives.  What each read of the serial port yields (a frame, or a time-out) is its input. */
module HostUpdater {
  import opened Words
  import opened Framing
  import opened Crc
  import opened Package
  import opened Layouts
  import opened Device
  import opened Link
  import RoleLink

  /** The host of the link model, given what its reads yield: the phase in which it stops. */
  function FinalPhase(job: Job, h: Host, inbox: seq<Option<Frame>>): Phase
    decreases |inbox|, h.tries
  {
    if !h.phase.Working() then h.phase
    else if h.tries == 0 then GaveUp
    else if inbox == [] || inbox[0].None? then
      FinalPhase(job, h.(tries := h.tries - 1, waiting := false), if inbox == [] then [] else inbox[1..])
    else FinalPhase(job, Received(job, h.(tries := h.tries - 1, waiting := true), inbox[0].value), inbox[1..])
  }

  /** What that host sends on the way, every repetition included. */
  function Sent(job: Job, h: Host, inbox: seq<Option<Frame>>): seq<Frame>
    decreases |inbox|, h.tries
  {
    if !h.phase.Working() || !PhaseOk(job, h.phase) || h.tries == 0 then []
    else if inbox == [] || inbox[0].None? then
      [Request(job, h)]
      + Sent(job, h.(tries := h.tries - 1, waiting := false), if inbox == [] then [] else inbox[1..])
    else
      [Request(job, h)] + Sent(job, Received(job, h.(tries := h.tries - 1, waiting := true), inbox[0].value), inbox[1..])
  }

  /** One transmission without a response in time. */
  lemma Silence(job: Job, h: Host, inbox: seq<Option<Frame>>)
    requires h.phase.Working() && h.tries > 0 && !h.waiting && (inbox == [] || inbox[0].None?)
    ensures var h', rest := h.(tries := h.tries - 1), if inbox == [] then [] else inbox[1..];
      && FinalPhase(job, h, inbox) == FinalPhase(job, h', rest)
      && (PhaseOk(job, h.phase) ==> Sent(job, h, inbox) == [Request(job, h)] + Sent(job, h', rest))
  {
    assert h.(tries := h.tries - 1, waiting := false) == h.(tries := h.tries - 1);
  }

  /** One transmission with a response that is not acceptable. */
  lemma Unacceptable(job: Job, h: Host, inbox: seq<Option<Frame>>)
    requires h.phase.Working() && h.tries > 0 && !h.waiting && inbox != [] && inbox[0].Some?
    requires inbox[0].value.sequence != SequenceOf(h.index) || !Expected(h.phase, inbox[0].value.kind)
    ensures var h' := h.(tries := h.tries - 1);
      && FinalPhase(job, h, inbox) == FinalPhase(job, h', inbox[1..])
      && (PhaseOk(job, h.phase) ==> Sent(job, h, inbox) == [Request(job, h)] + Sent(job, h', inbox[1..]))
  {
    var h' := h.(tries := h.tries - 1);
    assert Received(job, h'.(waiting := true), inbox[0].value) == h';
  }

  /** The host after an acceptable response. */
  function Answered(job: Job, h: Host, f: Frame): Host
    requires Expected(h.phase, f.kind)
  {
    Follow(Host(h.index, h.phase, 0, false), Advance(job, h.phase, f.kind, f.payload))
  }

  /** One transmission that is answered. */
  lemma Acceptance(job: Job, h: Host, inbox: seq<Option<Frame>>)
    requires h.phase.Working() && h.tries > 0 && inbox != [] && inbox[0].Some?
    requires inbox[0].value.sequence == SequenceOf(h.index) && Expected(h.phase, inbox[0].value.kind)
    ensures var next := Answered(job, h, inbox[0].value);
      && FinalPhase(job, h, inbox) == FinalPhase(job, next, inbox[1..])
      && (PhaseOk(job, h.phase) ==> Sent(job, h, inbox) == [Request(job, h)] + Sent(job, next, inbox[1..]))
  {
    hide Advance;
    var f := inbox[0].value;
    var next := Advance(job, h.phase, f.kind, f.payload);
    var h' := h.(tries := h.tries - 1, waiting := true);
    assert Received(job, h', f) == Follow(h', next);
    SameFollow(job, h', Host(h.index, h.phase, 0, false), next, inbox[1..]);
  }

  lemma Spent(job: Job, h: Host, inbox: seq<Option<Frame>>)
    requires h.phase.Working() && h.tries == 0
    ensures FinalPhase(job, h, inbox) == GaveUp && Sent(job, h, inbox) == []
  {
  }

  /** What a request reads and sends: the answer it returns, what is left to read, and the number of
      transmissions. */
  datatype Reading = Reading(answer: Option<Frame>, rest: seq<Option<Frame>>, transmissions: nat)

  predicate Acceptable(f: Frame, sequence: u16, expected: set<u8>) {
    f.sequence == sequence && f.kind in expected
  }

  /** The first acceptable frame among the next `retries` reads. */
  function Await(inbox: seq<Option<Frame>>, sequence: u16, expected: set<u8>, retries: nat): Reading
    decreases retries
  {
    if retries == 0 then Reading(None, inbox, 0)
    else if inbox != [] && inbox[0].Some? && Acceptable(inbox[0].value, sequence, expected) then
      Reading(inbox[0], inbox[1..], 1)
    else
      var r := Await(if inbox == [] then [] else inbox[1..], sequence, expected, retries - 1);
      r.(transmissions := r.transmissions + 1)
  }

  function Copies(f: Frame, n: nat): seq<Frame> {
    seq(n, i => f)
  }

  lemma OneMore(f: Frame, n: nat, more: seq<Frame>)
    ensures [f] + (Copies(f, n) + more) == Copies(f, n + 1) + more
  {
    assert [f] + Copies(f, n) == Copies(f, n + 1);
  }

  /** A request of a phase sends its frame and moves the link model's host to its next phase, or to
      giving up. */
  lemma {:induction false} RequestMovesHost(job: Job, h: Host, expected: set<u8>, inbox: seq<Option<Frame>>)
    requires h.phase.Working() && PhaseOk(job, h.phase) && !h.waiting
    requires forall k: u8 :: k in expected <==> Expected(h.phase, k)
    ensures var r := Await(inbox, SequenceOf(h.index), expected, h.tries);
      var frames := Copies(Request(job, h), r.transmissions);
      match r.answer
      case None => FinalPhase(job, h, inbox) == GaveUp && Sent(job, h, inbox) == frames
      case Some(f) =>
        && Expected(h.phase, f.kind) && |r.rest| < |inbox|
        && FinalPhase(job, h, inbox) == FinalPhase(job, Answered(job, h, f), r.rest)
        && Sent(job, h, inbox) == frames + Sent(job, Answered(job, h, f), r.rest)
    decreases h.tries
  {
    hide Advance, FinalPhase, Sent, RequestPayload;
    if h.tries == 0 {
      Spent(job, h, inbox);
    } else {
      var h', rest := h.(tries := h.tries - 1), if inbox == [] then [] else inbox[1..];
      var r := Await(rest, SequenceOf(h.index), expected, h.tries - 1);
      if inbox != [] && inbox[0].Some? && Acceptable(inbox[0].value, SequenceOf(h.index), expected) {
        Acceptance(job, h, inbox);
        assert Copies(Request(job, h), 1) == [Request(job, h)];
      } else {
        if inbox == [] || inbox[0].None? {
          Silence(job, h, inbox);
        } else {
          Unacceptable(job, h, inbox);
        }
        RequestMovesHost(job, h', expected, rest);
        OneMore(Request(job, h), r.transmissions, if r.answer.Some? then Sent(job, Answered(job, h', r.answer.value), r.rest) else []);
      }
    }
  }

  /** What a host that is sending makes of an answer, as it shows on the wire.  After an ACK, and after a
      NACK whose position is not ahead, the next frame is the block at the reported position, or END
      once that has reached the size; whether the position has moved does not matter.  After any other
      answer with its number nothing more is sent. */
  lemma NextOnTheWire(job: Job, h: Host, inbox: seq<Option<Frame>>, f: Frame)
    requires h.phase.Sending? && h.phase.offset < |job.info.image| && h.tries > 0
    requires inbox != [] && inbox[0] == Some(f)
    requires f.sequence == h.index % 0x1_0000 && (f.kind == ACK || f.kind == NACK)
    ensures var frames, image := Sent(job, h, inbox), job.info.image;
      && |frames| >= 1 && frames[0].kind == DATA && frames[0].sequence == h.index % 0x1_0000
      && frames[0].payload == BlockAt(image, h.phase.offset)
      && if |f.payload| != 4 || (f.kind == NACK && Load32(f.payload, 0) > h.phase.offset)
         then |frames| == 1 && FinalPhase(job, h, inbox) == GaveUp
         else
           && |frames| >= 2 && frames[1].sequence == (h.index + 1) % 0x1_0000
           && if Load32(f.payload, 0) < |image|
              then frames[1].kind == DATA && frames[1].payload == BlockAt(image, Load32(f.payload, 0))
              else frames[1].kind == END && frames[1].payload == []
  {
    hide Le32, Load32;
  }

  /** An offset and at most 128 bytes of the image from there. */
  function BlockAt(image: seq<u8>, offset: u32): seq<u8>
    requires offset <= |image|
  {
    Le32(offset) + image[offset..if offset + 128 <= |image| then offset + 128 else |image|]
  }

  /** And what one that is beginning makes of READY: the first block, or nothing if the device asks to
      resume elsewhere. */
  lemma FirstOnTheWire(job: Job, h: Host, inbox: seq<Option<Frame>>, f: Frame)
    requires h.phase.Beginning? && 0 < |job.info.image| && h.tries > 0
    requires inbox != [] && inbox[0] == Some(f) && f.sequence == h.index % 0x1_0000 && f.kind == READY
    ensures var frames, image := Sent(job, h, inbox), job.info.image;
      && |frames| >= 1 && frames[0].kind == BEGIN && frames[0].sequence == h.index % 0x1_0000
      && frames[0].payload == job.info.header.Bytes() + Le32(job.role)
      && if |f.payload| != 4 || Load32(f.payload, 0) != 0
         then |frames| == 1 && FinalPhase(job, h, inbox) == GaveUp
         else
           && |frames| >= 2 && frames[1].sequence == (h.index + 1) % 0x1_0000
           && frames[1].kind == DATA && frames[1].payload == BlockAt(image, 0)
  {
    hide Le32, Load32;
  }

  /** And one that is ending: COMPLETE is success. */
  lemma LastOnTheWire(job: Job, h: Host, inbox: seq<Option<Frame>>, f: Frame)
    requires h.phase.Ending? && h.tries > 0
    requires inbox != [] && inbox[0] == Some(f) && f.sequence == h.index % 0x1_0000 && f.kind == COMPLETE
    ensures Sent(job, h, inbox) == [Frame(END, h.index % 0x1_0000, [])] && FinalPhase(job, h, inbox) == Done
  {
  }

  /** The host of set_role, given what its reads yield. */
  function RoleOutcome(job: RoleLink.RoleJob, h: RoleLink.RoleHost, inbox: seq<Option<Frame>>): RoleLink.Progress
    decreases h.tries
  {
    if !h.progress.Asking? then h.progress
    else if h.tries == 0 then RoleLink.Progress.Failed
    else
      var asked := h.(tries := h.tries - 1, waiting := true);
      if inbox == [] || inbox[0].None? then
        RoleOutcome(job, asked.(waiting := false), if inbox == [] then [] else inbox[1..])
      else RoleOutcome(job, RoleLink.Heard(job, asked, inbox[0].value), inbox[1..])
  }

  lemma {:induction false} RequestMovesRole(job: RoleLink.RoleJob, h: RoleLink.RoleHost, inbox: seq<Option<Frame>>)
    requires h.progress.Asking? && !h.waiting
    ensures RoleOutcome(job, h, inbox).Succeeded? <==> Await(inbox, job.sequence, {COMPLETE}, h.tries).answer.Some?
    decreases h.tries
  {
    if h.tries > 0 {
      RequestMovesRole(job, h.(tries := h.tries - 1), if inbox == [] then [] else inbox[1..]);
    }
  }

  /** The package is sound, meant for the device and not too large for it. */
  ghost predicate Suits(package: seq<u8>, target: u32, maxSize: u32) {
    Parse(package).Ok? && |package| >= 32 && WordAt(package, 8) == target && WordAt(package, 16) <= maxSize
  }

  lemma ParsedFields(package: seq<u8>)
    requires Parse(package).Ok?
    ensures |package| >= 32
    ensures Parse(package).value.header.targetId == WordAt(package, 8)
    ensures Parse(package).value.header.imageSize == WordAt(package, 16)
  {
    hide Crc32, LoadHeader;
    LoadedFields(package);
  }

  class Updater {
    var sequence: u16
    var inbox: seq<Option<Frame>>
    var sent: seq<Frame>
    ghost var index: nat

    constructor (inbox: seq<Option<Frame>>)
      ensures Valid() && this.inbox == inbox && sent == [] && index == 0
    {
      sequence, index, sent := 0, 0, [];
      this.inbox := inbox;
    }

    ghost predicate Valid()
      reads this
    {
      sequence == SequenceOf(index)
    }

    method ReadFrame() returns (r: Option<Frame>)
      modifies this`inbox
      ensures r == if old(inbox) == [] then None else old(inbox)[0]
      ensures inbox == if old(inbox) == [] then [] else old(inbox)[1..]
    {
      if inbox == [] {
        return None;
      }
      r, inbox := inbox[0], inbox[1..];
    }

    /** request: sends the same frame up to `retries` times and returns the first response with its
        sequence number and an expected type, whatever the request is. */
    method Request(kind: u8, payload: seq<u8>, expected: set<u8>, retries: nat) returns (r: Option<Frame>)
      requires Valid()
      modifies this
      ensures Valid() && index == old(index) + 1
      ensures var reading := Await(old(inbox), sequence, expected, retries);
        && r == reading.answer && inbox == reading.rest
        && sent == old(sent) + Copies(Frame(kind, sequence, payload), reading.transmissions)
    {
      sequence := (sequence + 1) % 0x1_0000;
      index := index + 1;
      var frame := Frame(kind, sequence, payload);
      ghost var first, mailbox := sent, inbox;
      assert sent == first + Copies(frame, 0);
      for attempt := 0 to retries
        invariant Valid() && index == old(index) + 1 && frame == Frame(kind, sequence, payload)
        invariant sent == first + Copies(frame, attempt)
        invariant var left := Await(inbox, sequence, expected, retries - attempt);
          Await(mailbox, sequence, expected, retries) == left.(transmissions := left.transmissions + attempt)
      {
        sent := sent + [frame];
        assert sent == first + Copies(frame, attempt + 1);
        var response := ReadFrame();
        if response.Some? && response.value.sequence == sequence && response.value.kind in expected {
          return response;
        }
      }
      r := None;
    }

    /** set_role, after connect: it sends copies of one SET_ROLE frame, and succeeds exactly when the
        modelled host, fed with the same responses, does. */
    method SetRole(role: u32) returns (ok: bool)
      requires Valid()
      modifies this
      ensures Valid() && index == old(index) + 1
      ensures var job := RoleLink.RoleJob(role, sequence);
        && (ok <==> RoleOutcome(job, RoleLink.RoleHost(RoleLink.Asking, FRAME_RETRIES, false), old(inbox)).Succeeded?)
        && sent == old(sent) + Copies(job.Request(), Await(old(inbox), sequence, {COMPLETE}, FRAME_RETRIES).transmissions)
    {
      hide Await, RoleOutcome;
      ghost var mailbox := inbox;
      var complete := Request(SET_ROLE, Le32(role), {COMPLETE}, FRAME_RETRIES);
      RequestMovesRole(RoleLink.RoleJob(role, sequence), RoleLink.RoleHost(RoleLink.Asking, FRAME_RETRIES, false), mailbox);
      ok := complete.Some?;
    }

    /** The request of a phase of the flash operation. */
    method PhaseRequest(job: Job, ghost phase: Phase, kind: u8, payload: seq<u8>, expected: set<u8>)
      returns (r: Option<Frame>)
      requires Valid() && phase.Working() && PhaseOk(job, phase)
      requires kind == RequestKind(phase) && payload == RequestPayload(job, phase)
      requires forall k: u8 :: k in expected <==> Expected(phase, k)
      modifies this
      ensures Valid() && index == old(index) + 1
      ensures r.Some? ==> Expected(phase, r.value.kind) && |inbox| < |old(inbox)|
      ensures var h := Host(index, phase, FRAME_RETRIES, false);
        var next := if r.Some? then Answered(job, h, r.value) else h.(phase := GaveUp);
        Leads(job, h, old(inbox), old(sent), next, inbox, sent)
    {
      hide Advance, FinalPhase, Sent, RequestPayload, Await;
      ghost var h, mailbox, first := Host(index + 1, phase, FRAME_RETRIES, false), inbox, sent;
      RequestMovesHost(job, h, expected, inbox);
      r := Request(kind, payload, expected, FRAME_RETRIES);
      assert Frame(kind, sequence, payload) == Link.Request(job, h);
      Stopped(job, h.(phase := GaveUp), inbox);
      ghost var frames := Copies(Frame(kind, sequence, payload), Await(mailbox, sequence, expected, FRAME_RETRIES).transmissions);
      if r.Some? {
        assert first + (frames + Sent(job, Answered(job, h, r.value), inbox))
            == (first + frames) + Sent(job, Answered(job, h, r.value), inbox);
      }
    }

    /** flash, with the target and slot size the device has reported.  It succeeds exactly when the
        package is sound and meant for this device and the link model's host, fed with the same
        responses, is done; and then, as always, it has sent what that host sends. */
    method Flash(package: seq<u8>, role: u32, target: u32, maxSize: u32) returns (ok: bool)
      requires Valid()
      modifies this
      ensures Valid()
      ensures ok ==> Suits(package, target, maxSize)
      ensures !Suits(package, target, maxSize) ==> sent == old(sent)
      ensures Suits(package, target, maxSize) ==>
        var job, start := Job(Parse(package).value, role, false), Host(old(index) + 1, Beginning, FRAME_RETRIES, false);
        (ok <==> FinalPhase(job, start, old(inbox)) == Done) && sent == old(sent) + Sent(job, start, old(inbox))
    {
      hide Parse, FinalPhase, Sent, WordAt;
      if Parse(package).Err? {
        return false;
      }
      ParsedFields(package);
      var header := Parse(package).value.header;
      if header.targetId != target || header.imageSize > maxSize {
        return false;
      }
      ok := Transfer(package, role);
    }

    /** BEGIN, the blocks the device asks for, END. */
    method Transfer(package: seq<u8>, role: u32) returns (ok: bool)
      requires Valid() && Parse(package).Ok?
      modifies this
      ensures Valid()
      ensures var job, start := Job(Parse(package).value, role, false), Host(old(index) + 1, Beginning, FRAME_RETRIES, false);
        (ok <==> FinalPhase(job, start, old(inbox)) == Done) && sent == old(sent) + Sent(job, start, old(inbox))
    {
      hide Parse, FinalPhase, Sent, Load32, Le32, Chunk, Leads;
      ParsedHeaderOnDevice(package);
      var job := Job(Parse(package).value, role, false);
      var image := job.info.image;
      assert package[..HEADER_SIZE] == job.info.header.Bytes();
      ghost var start, mailbox, first := Host(index + 1, Beginning, FRAME_RETRIES, false), inbox, sent;
      var ready := PhaseRequest(job, Beginning, BEGIN, package[..HEADER_SIZE] + Le32(role), {READY});
      ghost var next := if ready.Some? then Answered(job, start, ready.value) else start.(phase := GaveUp);
      if ready.None? || |ready.value.payload| != 4 || Load32(ready.value.payload, 0) != 0 {
        Ends(job, start, mailbox, first, next, inbox, sent);
        return false;
      }
      ok := SendImage(job, start, mailbox, first);
      if ok {
        ok := Finish(job, start, mailbox, first);
      }
    }

    /** The blocks, each at the offset the device has reported. */
    method SendImage(job: Job, ghost start: Host, ghost mailbox: seq<Option<Frame>>, ghost first: seq<Frame>)
      returns (ok: bool)
      requires Valid()
      requires Leads(job, start, mailbox, first, Host(index + 1, NextBlock(job, 0), FRAME_RETRIES, false), inbox, sent)
      modifies this
      ensures Valid()
      ensures ok ==> Leads(job, start, mailbox, first, Host(index + 1, Ending, FRAME_RETRIES, false), inbox, sent)
      ensures !ok ==> FinalPhase(job, start, mailbox) == GaveUp && sent == first + Sent(job, start, mailbox)
    {
      hide FinalPhase, Sent, Load32, Le32, Chunk, Leads;
      var image, offset: u32 := job.info.image, 0;
      while offset < |image|
        invariant Valid()
        invariant Leads(job, start, mailbox, first, Host(index + 1, NextBlock(job, offset), FRAME_RETRIES, false), inbox, sent)
        decreases |inbox|
      {
        var block := Chunk(image, offset);
        ghost var h, i, n := Host(index + 1, Sending(offset), FRAME_RETRIES, false), inbox, sent;
        var answer := PhaseRequest(job, Sending(offset), DATA, Le32(offset) + block, {ACK, NACK});
        ghost var next := if answer.Some? then Answered(job, h, answer.value) else h.(phase := GaveUp);
        Onward(job, start, mailbox, first, h, i, n, next, inbox, sent);
        if answer.None? || |answer.value.payload| != 4 {
          Ends(job, start, mailbox, first, next, inbox, sent);
          return false;
        }
        var expected := Load32(answer.value.payload, 0);
        if answer.value.kind == NACK && expected > offset {
          Ends(job, start, mailbox, first, next, inbox, sent);
          return false;
        }
        offset := expected;
      }
      ok := true;
    }

    method Finish(job: Job, ghost start: Host, ghost mailbox: seq<Option<Frame>>, ghost first: seq<Frame>)
      returns (ok: bool)
      requires Valid()
      requires Leads(job, start, mailbox, first, Host(index + 1, Ending, FRAME_RETRIES, false), inbox, sent)
      modifies this
      ensures Valid()
      ensures FinalPhase(job, start, mailbox) == (if ok then Done else GaveUp) && sent == first + Sent(job, start, mailbox)
    {
      hide FinalPhase, Sent, Leads;
      ghost var h, i, n := Host(index + 1, Ending, FRAME_RETRIES, false), inbox, sent;
      var complete := PhaseRequest(job, Ending, END, [], {COMPLETE});
      ghost var next := if complete.Some? then Answered(job, h, complete.value) else h.(phase := GaveUp);
      Onward(job, start, mailbox, first, h, i, n, next, inbox, sent);
      Ends(job, start, mailbox, first, next, inbox, sent);
      ok := complete.Some?;
    }
  }

  /** From one point of an operation to a later one: same outcome, and the frames sent between. */
  ghost predicate Leads(job: Job, h: Host, inbox: seq<Option<Frame>>, sent: seq<Frame>,
                        h': Host, inbox': seq<Option<Frame>>, sent': seq<Frame>) {
    && FinalPhase(job, h, inbox) == FinalPhase(job, h', inbox')
    && sent + Sent(job, h, inbox) == sent' + Sent(job, h', inbox')
  }

  lemma Onward(job: Job, a: Host, i: seq<Option<Frame>>, s: seq<Frame>, b: Host, j: seq<Option<Frame>>, t: seq<Frame>,
               c: Host, k: seq<Option<Frame>>, u: seq<Frame>)
    requires Leads(job, a, i, s, b, j, t) && Leads(job, b, j, t, c, k, u)
    ensures Leads(job, a, i, s, c, k, u)
  {
    hide FinalPhase, Sent;
  }

  lemma Ends(job: Job, h: Host, inbox: seq<Option<Frame>>, sent: seq<Frame>,
             h': Host, inbox': seq<Option<Frame>>, sent': seq<Frame>)
    requires Leads(job, h, inbox, sent, h', inbox', sent') && !h'.phase.Working()
    ensures FinalPhase(job, h, inbox) == h'.phase && sent' == sent + Sent(job, h, inbox)
  {
    Stopped(job, h', inbox');
    assert sent' + [] == sent';
  }

  lemma Stopped(job: Job, h: Host, inbox: seq<Option<Frame>>)
    requires !h.phase.Working()
    ensures FinalPhase(job, h, inbox) == h.phase && Sent(job, h, inbox) == []
  {
  }

  lemma SameFollow(job: Job, a: Host, b: Host, phase: Phase, inbox: seq<Option<Frame>>)
    requires a.index == b.index
    ensures FinalPhase(job, Follow(a, phase), inbox) == FinalPhase(job, Follow(b, phase), inbox)
    ensures Sent(job, Follow(a, phase), inbox) == Sent(job, Follow(b, phase), inbox)
  {
  }
}
