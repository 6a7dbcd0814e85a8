/** Answers that arrive after their time-out.  Nothing is lost; but each premature time-out leaves one
    stale answer in front of all later ones, for the rest of the operation. */
module LinkLag {
  import opened Words
  import opened Crc
  import opened Journal
  import opened Package
  import opened Device
  import opened Link
  import opened LinkTheorems
  import opened LinkProgress
  import opened LinkRetries

  // ----- one transmission ---------------------------------------------------------------------

  /** The host is about to send, and the device has served everything so far. */
  ghost predicate Engaged(job: Job, s: System) {
    && s.host.phase.Working() && !s.host.waiting && s.up == [] && s.device.mode.Updating?
    && UnderWay(job, Between(s))
  }

  predicate Stale(h: Host, m: Msg) { m.frame.sequence != SequenceOf(h.index) }

  /** An answer that takes the host to its next phase. */
  ghost predicate Fresh(job: Job, h: Host, m: Msg)
    requires h.phase.Working() && PhaseOk(job, h.phase) && JobOk(job)
  {
    && m.frame.sequence == SequenceOf(h.index) && Expected(h.phase, m.frame.kind)
    && Advance(job, h.phase, m.frame.kind, m.frame.payload) == Following(job, h.phase)
  }

  lemma ExchangeFollows(job: Job, sequence: u16, c: Dialogue)
    requires ValidJob(job) && UnderWay(job, c)
    ensures var c' := Exchange(job, sequence, c);
      && c'.phase == Following(job, c.phase) != GaveUp
      && (c.phase.Ending? ==> Finished(job, c'))
      && (!c.phase.Ending? ==>
            && UnderWay(job, c') && UnderWay(job, c'.(phase := c.phase))
            && Remaining(job, c'.phase) == Remaining(job, c.phase) - 1)
  {
    hide Exchange, Ours;
    match c.phase {
      case Beginning => ExchangeBegin(job, sequence, c); ServedKeepsUnderWay(job, sequence, c);
      case Sending(_) => ExchangeData(job, sequence, c); ServedKeepsUnderWay(job, sequence, c);
      case Ending => ExchangeEnd(job, sequence, c);
    }
  }

  /** A request is sent and served; what was in flight stays in front of its answer. */
  lemma SentAndServed(job: Job, s: System) returns (s1: System, s2: System, m: Msg)
    requires ValidJob(job) && Engaged(job, s) && s.host.tries > 0
    ensures Possible(job, s, Send) && s1 == Happen(job, s, Send)
    ensures Possible(job, s1, Serve(NO_FAULT)) && s2 == Happen(job, s1, Serve(NO_FAULT))
    ensures s2.host == s.host.(tries := s.host.tries - 1, waiting := true)
    ensures s2.up == [] && s2.down == s.down + [m] && Fresh(job, s.host, m)
    ensures s.host.phase.Ending? ==> HoldsImage(job, s2.device)
    ensures !s.host.phase.Ending? ==>
      && s2.device.mode.Updating?
      && UnderWay(job, Between(s2)) && UnderWay(job, Between(s2).(phase := Following(job, s.host.phase)))
  {
    hide Handle, LegalStep, RequestPayload, Ours, Advance, ValidJob;
    var d, f := s.device, Request(job, s.host);
    ExchangeFollows(job, SequenceOf(s.host.index), Between(s));
    s1 := Happen(job, s, Send);
    NoFaultIsLegal(d, f);
    NoFaultAnswers(d.journal, d.flash, d.mode.session, f);
    ReplySequence(d, f, NO_FAULT);
    s2 := Happen(job, s1, Serve(NO_FAULT));
    m := s2.down[|s.down|];
  }

  // ----- within a request ---------------------------------------------------------------------

  /** Between two transmissions of a request: first the stale answers, then those to this request. */
  ghost predicate Mid(job: Job, s: System, stale: nat, current: nat) {
    && JobOk(job) && Engaged(job, s)
    && |s.down| == stale + current
    && (forall i | 0 <= i < stale :: Stale(s.host, s.down[i]))
    && (forall i | stale <= i < |s.down| :: Fresh(job, s.host, s.down[i]))
    && (current > 0 ==> !s.host.phase.Ending? && UnderWay(job, Between(s).(phase := Following(job, s.host.phase))))
  }

  /** At the start of a request. */
  ghost predicate Lagging(job: Job, s: System, lag: nat) {
    Mid(job, s, lag, 0) && s.host.tries == FRAME_RETRIES
  }

  const LATE: seq<Event> := [Send, Serve(NO_FAULT), TimeOut]

  lemma SameAnswers(job: Job, h: Host, h': Host, m: Msg)
    requires h.phase.Working() && PhaseOk(job, h.phase) && JobOk(job) && h'.phase == h.phase && h'.index == h.index
    ensures Stale(h', m) == Stale(h, m) && Fresh(job, h', m) == Fresh(job, h, m)
  {
  }

  /** A transmission that times out before its answer arrives. */
  lemma LateTransmission(job: Job, s: System, stale: nat, current: nat) returns (states: seq<System>)
    requires ValidJob(job) && Mid(job, s, stale, current) && s.host.tries > 0 && !s.host.phase.Ending?
    ensures SystemRun(job, states, LATE) && states[0] == s
    ensures Mid(job, states[3], stale, current + 1) && states[3].host == s.host.(tries := s.host.tries - 1)
  {
    hide UnderWay, ValidJob, Fresh, Advance, Following, Served, Request;
    var s1, s2, m := SentAndServed(job, s);
    var s3 := Happen(job, s2, TimeOut);
    states := [s, s1, s2, s3];
    assert EventAt(job, states, LATE, 0);
    assert EventAt(job, states, LATE, 1);
    assert EventAt(job, states, LATE, 2);
    forall i | 0 <= i < |s3.down|
      ensures i < stale ==> Stale(s3.host, s3.down[i])
      ensures i >= stale ==> Fresh(job, s3.host, s3.down[i])
    {
      SameAnswers(job, s.host, s3.host, s3.down[i]);
    }
  }

  /** A transmission whose wait ends with a stale answer. */
  lemma StaleTransmission(job: Job, s: System, stale: nat, current: nat) returns (states: seq<System>)
    requires ValidJob(job) && Mid(job, s, stale, current) && s.host.tries > 0 && stale > 0 && !s.host.phase.Ending?
    ensures SystemRun(job, states, ROUND) && states[0] == s
    ensures Mid(job, states[3], stale - 1, current + 1) && states[3].host == s.host.(tries := s.host.tries - 1)
  {
    hide UnderWay, ValidJob, Fresh, Advance, Following, Served, Request;
    var s1, s2, m := SentAndServed(job, s);
    assert s2.down[0] == s.down[0];
    var s3 := Happen(job, s2, Receive);
    states := [s, s1, s2, s3];
    assert EventAt(job, states, ROUND, 0);
    assert EventAt(job, states, ROUND, 1);
    assert EventAt(job, states, ROUND, 2);
    forall i | 0 <= i < |s3.down|
      ensures i < stale - 1 ==> Stale(s3.host, s3.down[i])
      ensures i >= stale - 1 ==> Fresh(job, s3.host, s3.down[i])
    {
      assert s3.down[i] == s2.down[i + 1];
      SameAnswers(job, s.host, s3.host, s3.down[i]);
    }
  }

  /** A transmission whose wait ends with an answer to this request: the other answers become stale. */
  lemma FreshTransmission(job: Job, s: System, current: nat) returns (states: seq<System>)
    requires ValidJob(job) && Mid(job, s, 0, current) && s.host.tries > 0 && !s.host.phase.Ending?
    ensures SystemRun(job, states, ROUND) && states[0] == s
    ensures Lagging(job, states[3], current)
    ensures Remaining(job, states[3].host.phase) == Remaining(job, s.host.phase) - 1
  {
    hide ValidJob, Ours, Advance, Served, Request, Following, Remaining, Exchange, LegalStep, Apply;
    var s1, s2, m := SentAndServed(job, s);
    assert Fresh(job, s.host, s2.down[0]);
    ExchangeFollows(job, SequenceOf(s.host.index), Between(s));
    var s3 := Happen(job, s2, Receive);
    states := [s, s1, s2, s3];
    assert EventAt(job, states, ROUND, 0);
    assert EventAt(job, states, ROUND, 1);
    assert EventAt(job, states, ROUND, 2);
    OneApart(s3.host.index);
    forall i | 0 <= i < |s3.down|
      ensures Stale(s3.host, s3.down[i])
    {
      assert s3.down[i] == s2.down[i + 1];
      assert Fresh(job, s.host, s2.down[i + 1]);
    }
  }

  function Repeat(events: seq<Event>, n: nat): seq<Event> {
    if n == 0 then [] else events + Repeat(events, n - 1)
  }

  lemma {:induction false} TimeOuts(job: Job, s: System, stale: nat, current: nat, n: nat) returns (states: seq<System>)
    requires ValidJob(job) && Mid(job, s, stale, current) && n <= s.host.tries && !s.host.phase.Ending?
    ensures SystemRun(job, states, Repeat(LATE, n)) && states[0] == s
    ensures var last := states[|Repeat(LATE, n)|];
      Mid(job, last, stale, current + n) && last.host == s.host.(tries := s.host.tries - n)
    decreases n
  {
    hide Mid, ValidJob, EventAt;
    states := [s];
    if n > 0 {
      var first := LateTransmission(job, s, stale, current);
      var more := TimeOuts(job, first[3], stale, current + 1, n - 1);
      Join(job, first, LATE, more, Repeat(LATE, n - 1));
      states := first[..3] + more;
    }
  }

  lemma {:induction false} StaleReads(job: Job, s: System, stale: nat, current: nat, n: nat) returns (states: seq<System>)
    requires ValidJob(job) && Mid(job, s, stale, current) && n <= s.host.tries && n <= stale && !s.host.phase.Ending?
    ensures SystemRun(job, states, Repeat(ROUND, n)) && states[0] == s
    ensures var last := states[|Repeat(ROUND, n)|];
      Mid(job, last, stale - n, current + n) && last.host == s.host.(tries := s.host.tries - n)
    decreases n
  {
    hide Mid, ValidJob, EventAt;
    states := [s];
    if n > 0 {
      var first := StaleTransmission(job, s, stale, current);
      var more := StaleReads(job, first[3], stale - 1, current + 1, n - 1);
      Join(job, first, ROUND, more, Repeat(ROUND, n - 1));
      states := first[..3] + more;
    }
  }

  /** Premature time-outs first, then answered transmissions. */
  function Tries(timeouts: nat, rounds: nat): seq<Event> { Repeat(LATE, timeouts) + Repeat(ROUND, rounds) }

  lemma WastedTries(job: Job, s: System, lag: nat, timeouts: nat, stale: nat) returns (states: seq<System>)
    requires ValidJob(job) && Lagging(job, s, lag) && stale <= lag && timeouts + stale <= FRAME_RETRIES
    requires !s.host.phase.Ending?
    ensures SystemRun(job, states, Tries(timeouts, stale)) && states[0] == s
    ensures var last := states[|Tries(timeouts, stale)|];
      && Mid(job, last, lag - stale, timeouts + stale)
      && last.host == s.host.(tries := FRAME_RETRIES - timeouts - stale)
  {
    hide Mid, ValidJob, EventAt, Repeat;
    var a := TimeOuts(job, s, lag, 0, timeouts);
    var b := StaleReads(job, a[|Repeat(LATE, timeouts)|], lag, timeouts, stale);
    Join(job, a, Repeat(LATE, timeouts), b, Repeat(ROUND, stale));
    states := a[..|Repeat(LATE, timeouts)|] + b;
  }

  /** A request with a lag is sent once for each stale answer, once for each premature time-out of its
      own, and once more; its own time-outs add to the lag. */
  lemma LaggingRequest(job: Job, s: System, lag: nat, timeouts: nat) returns (states: seq<System>)
    requires ValidJob(job) && Lagging(job, s, lag) && lag + timeouts < FRAME_RETRIES && !s.host.phase.Ending?
    ensures SystemRun(job, states, Tries(timeouts, lag) + ROUND) && states[0] == s
    ensures var last := states[|Tries(timeouts, lag) + ROUND|];
      && Lagging(job, last, lag + timeouts)
      && Remaining(job, last.host.phase) == Remaining(job, s.host.phase) - 1
  {
    hide Mid, ValidJob, EventAt, Tries;
    var n := |Tries(timeouts, lag)|;
    var a := WastedTries(job, s, lag, timeouts, lag);
    var b := FreshTransmission(job, a[n], timeouts + lag);
    Join(job, a, Tries(timeouts, lag), b, ROUND);
    states := a[..n] + b;
  }

  /** The bound is sharp: when stale answers and time-outs use up all transmissions the host gives up,
      although nothing was lost. */
  lemma TooMuchLag(job: Job, s: System, lag: nat, timeouts: nat) returns (states: seq<System>)
    requires ValidJob(job) && Lagging(job, s, lag) && timeouts <= FRAME_RETRIES <= lag + timeouts && !s.host.phase.Ending?
    ensures var events := Tries(timeouts, FRAME_RETRIES - timeouts) + [GiveUp];
      SystemRun(job, states, events) && states[0] == s && states[|events|].host.phase == GaveUp
  {
    hide UnderWay, ValidJob, Tries, Fresh;
    var tries := Tries(timeouts, FRAME_RETRIES - timeouts);
    var a := WastedTries(job, s, lag, timeouts, FRAME_RETRIES - timeouts);
    var b := [a[|tries|], Happen(job, a[|tries|], GiveUp)];
    assert EventAt(job, b, [GiveUp], 0);
    Join(job, a, tries, b, [GiveUp]);
    states := a[..|tries|] + b;
  }

  // ----- END ----------------------------------------------------------------------------------

  /** END was served: the device has rebooted, COMPLETE is in flight behind the stale answers. */
  ghost predicate CompleteComing(job: Job, s: System, lag: nat) {
    && JobOk(job) && s.host.phase.Ending? && s.host.waiting && HoldsImage(job, s.device)
    && |s.down| == lag + 1
    && (forall i | 0 <= i < lag :: Stale(s.host, s.down[i]))
    && Fresh(job, s.host, s.down[lag])
  }

  function Wait(timeouts: nat): Event { if timeouts > 0 then TimeOut else Receive }

  function Fewer(n: nat): nat { if n > 0 then n - 1 else 0 }

  /** Waits that end without COMPLETE, each followed by another transmission; nobody serves it. */
  function EndWaits(timeouts: nat, n: nat): seq<Event>
    decreases n
  {
    if n == 0 then [] else [Wait(timeouts), Send] + EndWaits(Fewer(timeouts), n - 1)
  }

  lemma EndWaited(job: Job, s: System, lag: nat, timeouts: nat) returns (s1: System)
    requires CompleteComing(job, s, lag) && timeouts + lag > 0
    ensures Possible(job, s, Wait(timeouts)) && s1 == Happen(job, s, Wait(timeouts))
    ensures s1.host == s.host.(waiting := false) && s1.device == s.device
    ensures s1.down == if timeouts > 0 then s.down else s.down[1..]
  {
    hide Fresh, Served, Request;
    s1 := Happen(job, s, Wait(timeouts));
  }

  lemma EndWaitedAndSent(job: Job, s: System, lag: nat, timeouts: nat) returns (states: seq<System>)
    requires CompleteComing(job, s, lag) && timeouts + lag > 0 && s.host.tries > 0
    ensures SystemRun(job, states, [Wait(timeouts), Send]) && states[0] == s
    ensures CompleteComing(job, states[2], if timeouts > 0 then lag else lag - 1)
    ensures states[2].host == s.host.(tries := s.host.tries - 1)
  {
    hide Fresh, Served;
    var s1 := EndWaited(job, s, lag, timeouts);
    var s2 := Happen(job, s1, Send);
    states := [s, s1, s2];
    assert EventAt(job, states, [Wait(timeouts), Send], 0);
    assert EventAt(job, states, [Wait(timeouts), Send], 1);
    SameAnswers(job, s.host, s2.host, s.down[lag]);
  }

  lemma {:induction false} EndWasted(job: Job, s: System, lag: nat, timeouts: nat, n: nat) returns (states: seq<System>)
    requires CompleteComing(job, s, lag) && n <= timeouts + lag && n <= s.host.tries
    ensures SystemRun(job, states, EndWaits(timeouts, n)) && states[0] == s
    ensures var last := states[|EndWaits(timeouts, n)|];
      && CompleteComing(job, last, if n <= timeouts then lag else lag + timeouts - n)
      && last.host == s.host.(tries := s.host.tries - n)
    decreases n
  {
    hide CompleteComing, EventAt;
    states := [s];
    if n > 0 {
      var first := EndWaitedAndSent(job, s, lag, timeouts);
      var more := EndWasted(job, first[2], if timeouts > 0 then lag else lag - 1, Fewer(timeouts), n - 1);
      Join(job, first, [Wait(timeouts), Send], more, EndWaits(Fewer(timeouts), n - 1));
      states := first[..2] + more;
    }
  }

  const END_SERVED: seq<Event> := [Send, Serve(NO_FAULT)]

  lemma EndServedOnce(job: Job, s: System, lag: nat) returns (states: seq<System>)
    requires ValidJob(job) && Lagging(job, s, lag) && s.host.phase.Ending?
    ensures SystemRun(job, states, END_SERVED) && states[0] == s
    ensures CompleteComing(job, states[2], lag) && states[2].host.tries == FRAME_RETRIES - 1
  {
    hide UnderWay, ValidJob, Fresh, Advance, Served, Request;
    var s1, s2, m := SentAndServed(job, s);
    states := [s, s1, s2];
    assert EventAt(job, states, END_SERVED, 0);
    assert EventAt(job, states, END_SERVED, 1);
    SameAnswers(job, s.host, s2.host, m);
    forall i | 0 <= i < lag ensures Stale(s2.host, s2.down[i]) {
      assert s2.down[i] == s.down[i];
    }
  }

  function EndScript(lag: nat, timeouts: nat): seq<Event> {
    END_SERVED + EndWaits(timeouts, timeouts + lag) + [Receive]
  }

  /** END with a lag: COMPLETE is read behind the stale answers. */
  lemma LaggingEnd(job: Job, s: System, lag: nat, timeouts: nat) returns (states: seq<System>)
    requires ValidJob(job) && Lagging(job, s, lag) && lag + timeouts < FRAME_RETRIES && s.host.phase.Ending?
    ensures SystemRun(job, states, EndScript(lag, timeouts)) && states[0] == s
    ensures Completed(job, states[|EndScript(lag, timeouts)|])
  {
    hide CompleteComing, EventAt, Mid, ValidJob, EndWaits;
    var waits := EndWaits(timeouts, timeouts + lag);
    var a := EndServedOnce(job, s, lag);
    var b := EndWasted(job, a[2], lag, timeouts, timeouts + lag);
    var c := CompleteRead(job, b[|waits|]);
    Join(job, a, END_SERVED, b, waits);
    Join(job, a[..2] + b, END_SERVED + waits, c, [Receive]);
    states := (a[..2] + b)[..2 + |waits|] + c;
  }

  lemma CompleteRead(job: Job, s: System) returns (states: seq<System>)
    requires CompleteComing(job, s, 0)
    ensures SystemRun(job, states, [Receive]) && states[0] == s && Completed(job, states[1])
  {
    hide Served, Request;
    states := [s, Happen(job, s, Receive)];
    assert EventAt(job, states, [Receive], 0);
  }

  /** And with too much of it the host gives up, although the image is installed and nothing was lost. */
  lemma TooMuchLagAtEnd(job: Job, s: System, lag: nat, timeouts: nat) returns (states: seq<System>)
    requires ValidJob(job) && Lagging(job, s, lag) && timeouts <= FRAME_RETRIES <= lag + timeouts && s.host.phase.Ending?
    ensures var events := END_SERVED + EndWaits(timeouts, FRAME_RETRIES - 1) + [if timeouts == FRAME_RETRIES then TimeOut else Receive, GiveUp];
      && SystemRun(job, states, events) && states[0] == s
      && states[|events|].host.phase == GaveUp && HoldsImage(job, states[|events|].device)
  {
    hide CompleteComing, EventAt, Mid, ValidJob, EndWaits, HoldsImage;
    var waits := EndWaits(timeouts, FRAME_RETRIES - 1);
    var a := EndServedOnce(job, s, lag);
    var b := EndWasted(job, a[2], lag, timeouts, FRAME_RETRIES - 1);
    var more := if timeouts == FRAME_RETRIES then 1 else 0;
    var c := LastWaitWasted(job, b[|waits|], if timeouts == FRAME_RETRIES then lag else lag + timeouts - 4, more);
    Join(job, a, END_SERVED, b, waits);
    Join(job, a[..2] + b, END_SERVED + waits, c, [Wait(more), GiveUp]);
    states := (a[..2] + b)[..2 + |waits|] + c;
  }

  lemma LastWaitWasted(job: Job, s: System, lag: nat, timeouts: nat) returns (states: seq<System>)
    requires CompleteComing(job, s, lag) && timeouts + lag > 0 && s.host.tries == 0
    ensures SystemRun(job, states, [Wait(timeouts), GiveUp]) && states[0] == s
    ensures states[2].host.phase == GaveUp && HoldsImage(job, states[2].device)
  {
    hide Fresh, Served, Request;
    var s1 := EndWaited(job, s, lag, timeouts);
    var s2 := Happen(job, s1, GiveUp);
    states := [s, s1, s2];
    assert EventAt(job, states, [Wait(timeouts), GiveUp], 0);
    assert EventAt(job, states, [Wait(timeouts), GiveUp], 1);
  }

  // ----- whole operations ---------------------------------------------------------------------

  function Sum(timeouts: seq<nat>): nat {
    if timeouts == [] then 0 else timeouts[0] + Sum(timeouts[1..])
  }

  /** The events of one request; the last one is END. */
  function RequestScript(lag: nat, timeouts: nat, last: bool): seq<Event>
    requires timeouts <= FRAME_RETRIES
  {
    if lag + timeouts < FRAME_RETRIES then
      if last then EndScript(lag, timeouts) else Tries(timeouts, lag) + ROUND
    else if last then
      END_SERVED + EndWaits(timeouts, FRAME_RETRIES - 1) + [if timeouts == FRAME_RETRIES then TimeOut else Receive, GiveUp]
    else Tries(timeouts, FRAME_RETRIES - timeouts) + [GiveUp]
  }

  predicate Few(timeouts: seq<nat>) { forall i | 0 <= i < |timeouts| :: timeouts[i] <= FRAME_RETRIES }

  /** What happens in an operation in which request number i suffers timeouts[i] premature time-outs. */
  function LateScript(timeouts: seq<nat>, lag: nat): seq<Event>
    requires Few(timeouts)
  {
    if timeouts == [] then []
    else
      var first := RequestScript(lag, timeouts[0], |timeouts| == 1);
      if lag + timeouts[0] < FRAME_RETRIES then first + LateScript(timeouts[1..], lag + timeouts[0]) else first
  }

  lemma SumOne(timeouts: seq<nat>)
    requires |timeouts| == 1
    ensures Sum(timeouts) == timeouts[0] && timeouts[1..] == []
  {
  }

  lemma LastRequestLagging(job: Job, s: System, timeouts: seq<nat>, lag: nat) returns (states: seq<System>)
    requires ValidJob(job) && Lagging(job, s, lag) && |timeouts| == 1 && Few(timeouts) && s.host.phase.Ending?
    ensures SystemRun(job, states, LateScript(timeouts, lag)) && states[0] == s
    ensures var last := states[|LateScript(timeouts, lag)|];
      if lag + Sum(timeouts) < FRAME_RETRIES then Completed(job, last) else last.host.phase == GaveUp
  {
    hide ValidJob, Mid, EventAt, EndScript, EndWaits, Completed;
    SumOne(timeouts);
    if lag + timeouts[0] < FRAME_RETRIES {
      states := LaggingEnd(job, s, lag, timeouts[0]);
      assert LateScript(timeouts, lag) == EndScript(lag, timeouts[0]);
    } else {
      states := TooMuchLagAtEnd(job, s, lag, timeouts[0]);
    }
  }

  /** Nothing is lost, but time-outs come too early, in whatever pattern.  The operation completes exactly
      if there are fewer of them, over all requests together and with the lag it starts with, than a
      single request has transmissions. */
  lemma {:induction false} LateAnswers(job: Job, s: System, timeouts: seq<nat>, lag: nat) returns (states: seq<System>)
    requires ValidJob(job) && Lagging(job, s, lag)
    requires Few(timeouts) && |timeouts| == Remaining(job, s.host.phase)
    ensures SystemRun(job, states, LateScript(timeouts, lag)) && states[0] == s
    ensures var last := states[|LateScript(timeouts, lag)|];
      if lag + Sum(timeouts) < 5 then Completed(job, last) else last.host.phase == GaveUp
    decreases |timeouts|
  {
    hide ValidJob, EventAt, Tries, EndScript, EndWaits, Completed, Remaining, Ours, Fresh;
    LastRequest(job, s.host.phase);
    if s.host.phase.Ending? {
      states := LastRequestLagging(job, s, timeouts, lag);
    } else if lag + timeouts[0] < FRAME_RETRIES {
      var first := Tries(timeouts[0], lag) + ROUND;
      var a := LaggingRequest(job, s, lag, timeouts[0]);
      var b := LateAnswers(job, a[|first|], timeouts[1..], lag + timeouts[0]);
      Join(job, a, first, b, LateScript(timeouts[1..], lag + timeouts[0]));
      states := a[..|first|] + b;
    } else {
      states := TooMuchLag(job, s, lag, timeouts[0]);
    }
  }

  /** For every package the device accepts: flash completes exactly if fewer than five time-outs come too
      early in the whole operation. */
  lemma FlashWithLateAnswers(package: seq<u8>, role: u32, s: System, timeouts: seq<nat>) returns (states: seq<System>)
    requires Starts(package, role, s) && s.up == [] && s.down == [] && s.device.mode.Updating?
    requires IsValidPackageHeader(JobOf(package, role, false).info.header) && IsValidAppRole(role)
    requires Few(timeouts)
    requires |timeouts| == 2 + (|JobOf(package, role, false).info.image| + CHUNK_SIZE - 1) / CHUNK_SIZE
    ensures SystemRun(JobOf(package, role, false), states, LateScript(timeouts, 0)) && states[0] == s
    ensures var last := states[|LateScript(timeouts, 0)|];
      if Sum(timeouts) < 5
      then Completed(JobOf(package, role, false), last) && Flashed(Parse(package).value, role, false, last)
      else last.host.phase == GaveUp
  {
    hide Parse, EventAt, IsValidPackageHeader, Ordered, NoValidBeyond, Crc32, LateScript, TagsOk, Tags, Flashed;
    var job := JobOf(package, role, false);
    ParsedHeaderOnDevice(package);
    states := LateAnswers(job, s, timeouts, 0);
    if Sum(timeouts) < FRAME_RETRIES {
      FlashSucceeds(package, role, false, states, LateScript(timeouts, 0));
    }
  }
}
