/** The host tool's loops and the host of the link model are the same host: fed with what the model's host
    reads in a run, the tool ends as it does and sends what it sends. */
module HostRuns {
  import opened Words
  import opened Framing
  import opened Journal
  import opened Package
  import opened Device
  import opened Link
  import opened LinkTheorems
  import opened HostUpdater

  // ----- flash --------------------------------------------------------------------------------

  /** What the host reads in an event: the next response, or nothing in time. */
  ghost function ReadBy(s: System, e: Event): seq<Option<Frame>> {
    match e
    case TimeOut => [None]
    case Receive => if s.down == [] then [] else [Some(s.down[0].frame)]
    case _ => []
  }

  ghost function SentBy(job: Job, s: System, e: Event): seq<Frame> {
    if e.Send? && s.host.phase.Working() && PhaseOk(job, s.host.phase) then [Request(job, s.host)] else []
  }

  /** Its reads and transmissions from event k on. */
  ghost function Reads(states: seq<System>, events: seq<Event>, k: nat): seq<Option<Frame>>
    requires |states| == |events| + 1 && k <= |events|
    decreases |events| - k
  {
    if k == |events| then [] else ReadBy(states[k], events[k]) + Reads(states, events, k + 1)
  }

  ghost function Sends(job: Job, states: seq<System>, events: seq<Event>, k: nat): seq<Frame>
    requires |states| == |events| + 1 && k <= |events|
    decreases |events| - k
  {
    if k == |events| then [] else SentBy(job, states[k], events[k]) + Sends(job, states, events, k + 1)
  }

  ghost predicate HostOk(job: Job, h: Host) {
    PhaseOk(job, h.phase) && (h.waiting ==> h.phase.Working())
  }

  /** The host before the transmission it is waiting for. */
  function Before(h: Host): Host {
    if h.waiting then h.(tries := h.tries + 1, waiting := false) else h
  }

  ghost function InFlight(job: Job, h: Host): seq<Frame>
    requires HostOk(job, h)
  {
    if h.waiting then [Request(job, h)] else []
  }

  lemma HostStaysOk(job: Job, s: System, e: Event)
    requires Possible(job, s, e) && HostOk(job, s.host)
    ensures HostOk(job, Happen(job, s, e).host)
  {
    hide Handle, LegalStep, RequestPayload;
  }

  /** One event of the run is what the tool does with one read, or nothing the tool notices. */
  lemma EventIsRead(job: Job, s: System, e: Event, later: seq<Option<Frame>>)
    requires Possible(job, s, e) && HostOk(job, s.host)
    ensures FinalPhase(job, Before(s.host), ReadBy(s, e) + later)
         == FinalPhase(job, Before(Happen(job, s, e).host), later)
  {
    hide Handle, LegalStep, RequestPayload, Advance;
    if e.Receive? || e.TimeOut? {
      assert (ReadBy(s, e) + later)[1..] == later;
    } else {
      assert ReadBy(s, e) + later == later;
    }
  }

  /** A host that waits, and reads. */
  lemma SentAndRead(job: Job, h: Host, r: Option<Frame>, later: seq<Option<Frame>>)
    requires HostOk(job, h) && h.waiting
    ensures var next := if r.Some? then Received(job, h, r.value) else h.(waiting := false);
      Sent(job, Before(h), [r] + later) == [Request(job, h)] + Sent(job, next, later)
  {
    hide RequestPayload, Received;
    assert ([r] + later)[1..] == later;
    assert Request(job, Before(h)) == Request(job, h);
    assert Before(h).(tries := Before(h).tries - 1, waiting := true) == h;
  }

  lemma EventIsSent(job: Job, s: System, e: Event, later: seq<Option<Frame>>, sent: seq<Frame>)
    requires Possible(job, s, e) && HostOk(job, s.host) && HostOk(job, Happen(job, s, e).host)
    requires InFlight(job, Happen(job, s, e).host) + sent == Sent(job, Before(Happen(job, s, e).host), later)
    ensures InFlight(job, s.host) + (SentBy(job, s, e) + sent) == Sent(job, Before(s.host), ReadBy(s, e) + later)
  {
    hide Handle, LegalStep, RequestPayload, Advance, Sent;
    var h := s.host;
    if e.Receive? {
      SentAndRead(job, h, Some(s.down[0].frame), later);
      assert [] + sent == sent;
    } else if e.TimeOut? {
      SentAndRead(job, h, None, later);
      assert [] + sent == sent;
    } else {
      assert ReadBy(s, e) + later == later;
      if e.GiveUp? {
        SpentSendsNothing(job, h, later);
      }
    }
  }

  lemma SpentSendsNothing(job: Job, h: Host, later: seq<Option<Frame>>)
    requires h.tries == 0
    ensures Sent(job, h, later) == [] == Sent(job, h.(phase := GaveUp), later)
  {
  }

  /** Over every run in which the host comes to an end: the tool, fed with what the host reads from any
      event on, ends in the same phase and sends the same frames. */
  lemma {:induction false} ToolFollowsHost(job: Job, states: seq<System>, events: seq<Event>, k: nat)
    requires SystemRun(job, states, events) && k <= |events| && HostOk(job, states[k].host)
    requires !states[|events|].host.phase.Working()
    ensures FinalPhase(job, Before(states[k].host), Reads(states, events, k)) == states[|events|].host.phase
    ensures InFlight(job, states[k].host) + Sends(job, states, events, k)
         == Sent(job, Before(states[k].host), Reads(states, events, k))
    decreases |events| - k
  {
    hide Possible, Happen, FinalPhase, Sent, ReadBy, SentBy;
    var h := states[k].host;
    if k == |events| {
      HostUpdater.Stopped(job, h, []);
    } else {
      assert EventAt(job, states, events, k);
      HostStaysOk(job, states[k], events[k]);
      ToolFollowsHost(job, states, events, k + 1);
      EventIsRead(job, states[k], events[k], Reads(states, events, k + 1));
      EventIsSent(job, states[k], events[k], Reads(states, events, k + 1), Sends(job, states, events, k + 1));
    }
  }

  lemma {:induction false} RequestsDoNotMatter(job: Job, requests: bool, h: Host, inbox: seq<Option<Frame>>)
    ensures FinalPhase(job.(requests := requests), h, inbox) == FinalPhase(job, h, inbox)
    decreases |inbox|, h.tries
  {
    hide Advance;
    if h.phase.Working() && h.tries > 0 {
      if inbox == [] || inbox[0].None? {
        RequestsDoNotMatter(job, requests, h.(tries := h.tries - 1, waiting := false), if inbox == [] then [] else inbox[1..]);
      } else {
        var h' := Received(job, h.(tries := h.tries - 1, waiting := true), inbox[0].value);
        SameReceived(job, requests, h.(tries := h.tries - 1, waiting := true), inbox[0].value);
        RequestsDoNotMatter(job, requests, h', inbox[1..]);
      }
    }
  }

  lemma SameReceived(job: Job, requests: bool, h: Host, f: Frame)
    ensures Received(job.(requests := requests), h, f) == Received(job, h, f)
  {
  }

  /** So the tool's success on the reads of a run has the meaning of the link theorem. */
  lemma ToolSuccessIsFlashed(package: seq<u8>, role: u32, requests: bool, states: seq<System>, events: seq<Event>)
    requires Parse(package).Ok? && SystemRun(JobOf(package, role, requests), states, events)
    requires Starts(package, role, states[0]) && !states[|events|].host.phase.Working()
    requires FinalPhase(JobOf(package, role, false), states[0].host, Reads(states, events, 0)) == Done
    ensures Flashed(Parse(package).value, role, requests, states[|events|])
  {
    hide Parse, EventAt, FinalPhase, Sent, Flashed, TagsOk, Tags;
    var job := JobOf(package, role, requests);
    ToolFollowsHost(job, states, events, 0);
    RequestsDoNotMatter(job, false, states[0].host, Reads(states, events, 0));
    FlashSucceeds(package, role, requests, states, events);
  }

  // ----- set_role -----------------------------------------------------------------------------

  ghost function RoleReadBy(s: RoleLink.RoleSystem, e: Event): seq<Option<Frame>> {
    match e
    case TimeOut => [None]
    case Receive => if s.down == [] then [] else [Some(s.down[0])]
    case _ => []
  }

  ghost function RoleReads(states: seq<RoleLink.RoleSystem>, events: seq<Event>, k: nat): seq<Option<Frame>>
    requires |states| == |events| + 1 && k <= |events|
    decreases |events| - k
  {
    if k == |events| then [] else RoleReadBy(states[k], events[k]) + RoleReads(states, events, k + 1)
  }

  function RoleBefore(h: RoleLink.RoleHost): RoleLink.RoleHost {
    if h.waiting then h.(tries := h.tries + 1, waiting := false) else h
  }

  lemma RoleEventIsRead(job: RoleLink.RoleJob, s: RoleLink.RoleSystem, e: Event, later: seq<Option<Frame>>)
    requires RoleLink.Possible(s, e) && (s.host.waiting ==> s.host.progress.Asking?)
    ensures var h := RoleLink.Happen(job, s, e).host;
      && (h.waiting ==> h.progress.Asking?)
      && RoleOutcome(job, RoleBefore(s.host), RoleReadBy(s, e) + later) == RoleOutcome(job, RoleBefore(h), later)
  {
    hide Handle, LegalStep;
    if e.Receive? || e.TimeOut? {
      assert (RoleReadBy(s, e) + later)[1..] == later;
    } else {
      assert RoleReadBy(s, e) + later == later;
    }
  }

  /** The same for set_role. */
  lemma {:induction false} ToolFollowsRoleHost(
      job: RoleLink.RoleJob, states: seq<RoleLink.RoleSystem>, events: seq<Event>, k: nat)
    requires RoleLink.RoleRun(job, states, events) && k <= |events|
    requires states[k].host.waiting ==> states[k].host.progress.Asking?
    requires !states[|events|].host.progress.Asking?
    ensures RoleOutcome(job, RoleBefore(states[k].host), RoleReads(states, events, k)) == states[|events|].host.progress
    decreases |events| - k
  {
    hide RoleLink.Possible, RoleLink.Happen, RoleOutcome, RoleReadBy;
    if k == |events| {
      RoleStopped(job, states[k].host, []);
    } else {
      assert RoleLink.RoleEventAt(job, states, events, k);
      RoleEventIsRead(job, states[k], events[k], RoleReads(states, events, k + 1));
      ToolFollowsRoleHost(job, states, events, k + 1);
    }
  }

  lemma RoleStopped(job: RoleLink.RoleJob, h: RoleLink.RoleHost, inbox: seq<Option<Frame>>)
    requires !h.progress.Asking?
    ensures RoleOutcome(job, h, inbox) == h.progress
  {
  }

  lemma ToolSuccessIsRecorded(job: RoleLink.RoleJob, states: seq<RoleLink.RoleSystem>, events: seq<Event>)
    requires RoleLink.RoleRun(job, states, events) && RoleLink.RoleStarts(job, states[0])
    requires !states[|events|].host.progress.Asking?
    requires RoleOutcome(job, states[0].host, RoleReads(states, events, 0)).Succeeded?
    ensures RoleLink.RoleOnRecord(job.role, Read(states[|events|].device.journal))
  {
    hide RoleOutcome, RoleLink.RoleEventAt, RoleLink.RoleOnRecord, Read;
    ToolFollowsRoleHost(job, states, events, 0);
    RoleLink.SetRoleSucceeds(job, states, events);
  }
}
