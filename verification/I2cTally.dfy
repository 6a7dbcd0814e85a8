/** What the two counters of the slave count, and what a master reads of them. */
module I2cTally {
  import opened Words
  import opened I2cSlave
  import opened I2cTheorems
  import opened I2cFate
  import opened I2cLoopback

  // ----- the tally ----------------------------------------------------------------------------

  /** Counted since the worker last cleared each counter: write transactions posted; bytes dropped from
      transactions of more than 64, transactions dropped on a full mailbox, and writes the worker found
      to be neither the command nor loopback; and of the latter those that were overwritten. */
  datatype Counts = Counts(transactions: nat, errors: nat, overwritten: nat) {
    ghost predicate Shows(transactionCount: u32, errorCount: u32) {
      && overwritten <= errors
      && transactionCount == transactions % WORD
      && errorCount == (errors - overwritten) % WORD
    }
  }

  /** Now; errors of the handler since the worker has loaded the counter to increment it; and the counts
      at the time the bank under construction, the published and the frozen image got their fields. */
  datatype Tally = Tally(now: Counts, since: nat, filled: Counts, shown: Counts, frozen: Counts)

  function WithError(t: Tally): Tally {
    t.(now := t.now.(errors := t.now.errors + 1), since := t.since + 1)
  }

  function TallyData(o: Seen, d: Data, t: Tally): Tally {
    match d
    case FirstByte(_) => t.(frozen := t.shown)
    case NextByte(_) => if |o.current.written| >= 64 then WithError(t) else t
    case _ => t
  }

  function TallyStop(s: Shared, o: Seen, t: Tally): Tally {
    if o.current.written != [] then
      if s.pendingCount != 0 then WithError(t) else t.(now := t.now.(transactions := t.now.transactions + 1))
    else if o.current.read != [] && s.dumpEnabled && s.pendingCount != 0 then WithError(t)
    else t
  }

  function TallyWork(w: Worker, t: Tally): Tally {
    match w.pc
    case ClearTransactions => t.(now := t.now.(transactions := 0))
    case ClearErrors => t.(now := t.now.(errors := 0, overwritten := 0))
    case LoadErrors => t.(since := 0)
    case StoreErrors => t.(now := t.now.(errors := t.now.errors + 1, overwritten := t.now.overwritten + t.since))
    case FillTransactions => t.(filled := t.filled.(transactions := t.now.transactions))
    case FillErrors => t.(filled := t.filled.(errors := t.now.errors, overwritten := t.now.overwritten))
    case Flip => t.(shown := t.filled)
    case _ => t
  }

  function TallyStep(x: State, e: Event, t: Tally): Tally
    requires InRange(x.s)
  {
    match e
    case OnInterrupt(i) =>
      var t' := TallyData(x.o, i.data, t);
      if i.stop then TallyStop(x.s, SeeData(x.s, x.o, i.data), t') else t'
    case OnWork(_) => TallyWork(x.w, t)
    case OnDump(_) => t
  }

  // ----- the invariant ------------------------------------------------------------------------

  /** The counters are what was counted, also while the worker increments. */
  ghost predicate CountersOk(s: Shared, w: Worker, t: Tally) {
    && t.now.Shows(s.transactionCount, s.errorCount)
    && (w.pc.StoreErrors? ==>
          && t.now.overwritten + t.since <= t.now.errors
          && w.loaded == (t.now.errors - t.now.overwritten - t.since) % WORD)
  }

  /** The counters as a master finds them in a register image. */
  ghost predicate ImageShows(b: Block, c: Counts) {
    && c.overwritten <= c.errors
    && b[10..14] == Le32(c.transactions % WORD)
    && b[14..18] == Le32((c.errors - c.overwritten) % WORD)
  }

  ghost predicate FilledOk(s: Shared, w: Worker, t: Tally) {
    && (w.pc.FillErrors? || w.pc.FillTicks? || w.pc.Flip? ==> w.transactions == t.filled.transactions % WORD)
    && (w.pc.FillTicks? || w.pc.Flip? ==>
          && t.filled.overwritten <= t.filled.errors
          && w.errors == (t.filled.errors - t.filled.overwritten) % WORD)
    && (w.pc.Flip? ==> ImageShows(s.Bank(w.target), t.filled))
  }

  ghost predicate TallyOk(x: State, t: Tally) {
    && CountersOk(x.s, x.w, t)
    && FilledOk(x.s, x.w, t)
    && ImageShows(x.o.published, t.shown)
    && (x.s.transmitPointerValid ==> ImageShows(x.o.frozen, t.frozen))
  }

  // ----- interrupts ---------------------------------------------------------------------------

  lemma ErrorCounted(s: Shared, w: Worker, t: Tally)
    requires CountersOk(s, w, t)
    ensures CountersOk(s.(errorCount := Add32(s.errorCount, 1)), w, WithError(t))
  {
    ModSuccessor(t.now.errors - t.now.overwritten);
  }

  lemma ModSuccessor(n: nat)
    ensures (n + 1) % WORD == (n % WORD + 1) % WORD
  {
  }

  lemma DataCounted(s: Shared, w: Worker, o: Seen, d: Data, t: Tally)
    requires InRange(s) && BusOk(s, o.current) && CountersOk(s, w, t)
    ensures CountersOk(OnData(s, d), w, TallyData(o, d, t))
  {
    hide Folded, CountersOk, TransmitValue;
    var s' := OnData(s, d);
    if d.NextByte? && |o.current.written| >= 64 {
      ErrorCounted(s, w, t);
      SameCounters(s.(errorCount := Add32(s.errorCount, 1)), s', w, WithError(t));
    } else {
      SameCounters(s, s', w, t);
      SameNow(s', w, t, TallyData(o, d, t));
    }
  }

  lemma SameCounters(s: Shared, s': Shared, w: Worker, t: Tally)
    requires CountersOk(s, w, t) && s'.transactionCount == s.transactionCount && s'.errorCount == s.errorCount
    ensures CountersOk(s', w, t)
  {
  }

  lemma SameNow(s: Shared, w: Worker, t: Tally, t': Tally)
    requires CountersOk(s, w, t) && t'.now == t.now && t'.since == t.since
    ensures CountersOk(s, w, t')
  {
  }

  lemma StopCounted(s: Shared, w: Worker, o: Seen, t: Tally)
    requires InRange(s) && BusOk(s, o.current) && CountersOk(s, w, t)
    ensures CountersOk(OnStop(s), w, TallyStop(s, o, t))
  {
    hide CountersOk, Overlay;
    StopConditions(s, o.current);
    var s' := OnStop(s);
    if o.current.written != [] && s.pendingCount == 0 {
      TransactionCounted(s, w, t);
      SameCounters(s.(transactionCount := Add32(s.transactionCount, 1)), s', w, TallyStop(s, o, t));
    } else if TallyStop(s, o, t) == WithError(t) {
      ErrorCounted(s, w, t);
      SameCounters(s.(errorCount := Add32(s.errorCount, 1)), s', w, WithError(t));
    } else {
      SameCounters(s, s', w, t);
    }
  }

  lemma TransactionCounted(s: Shared, w: Worker, t: Tally)
    requires CountersOk(s, w, t)
    ensures CountersOk(s.(transactionCount := Add32(s.transactionCount, 1)), w,
                       t.(now := t.now.(transactions := t.now.transactions + 1)))
  {
    ModSuccessor(t.now.transactions);
  }

  /** What the handler sees of a transaction at its end is what the master did. */
  lemma StopConditions(s: Shared, t: Txn)
    requires InRange(s) && BusOk(s, t)
    ensures s.receiveCount != 0 <==> t.written != []
    ensures t.written == [] ==> (PostsRead(s) <==> t.read != [] && s.dumpEnabled)
  {
  }

  lemma InterruptTallied(board: Board, x: State, i: Interrupt, t: Tally)
    requires StateInv(board, x) && TallyOk(x, t) && InRange(x.s) && WorkerInRange(x.w)
    ensures TallyOk(Step(board, x, OnInterrupt(i)), TallyStep(x, OnInterrupt(i), t))
  {
    hide BusOk, MailboxOk, TakenOk, SnapshotOk, CountersOk, OnData, OnStop, ImageShows, BuiltOk, IsImage, TallyStop;
    var s, o, t1 := OnData(x.s, i.data), SeeData(x.s, x.o, i.data), TallyData(x.o, i.data, t);
    DataKeeps(board, x.s, x.w, x.o, i.data);
    DataCounted(x.s, x.w, x.o, i.data, t);
    DataImages(x.s, x.o, i.data);
    if i.stop {
      StopBus(s);
      StopCounted(s, x.w, o, t1);
      StopTally(x.s, s, o, t1);
    }
  }

  lemma DataImages(s: Shared, o: Seen, d: Data)
    requires InRange(s)
    ensures var s', o' := OnData(s, d), SeeData(s, o, d);
      && SameBanks(s, s') && s'.pendingCount == s.pendingCount && s'.dumpEnabled == s.dumpEnabled
      && o'.published == o.published
      && (if d.FirstByte? then o'.frozen == s.Bank(s.activeRegisters)
          else o'.frozen == o.frozen && s'.transmitPointerValid == s.transmitPointerValid)
  {
    hide TransmitValue;
  }

  lemma StopTally(s: Shared, s': Shared, o: Seen, t: Tally)
    requires s'.pendingCount == s.pendingCount && s'.dumpEnabled == s.dumpEnabled
    ensures TallyStop(s, o, t) == TallyStop(s', o, t)
    ensures var t' := TallyStop(s, o, t); t'.filled == t.filled && t'.shown == t.shown && t'.frozen == t.frozen
  {
  }

  // ----- the worker ---------------------------------------------------------------------------

  lemma ActCounted(s: Shared, w: Worker, t: Tally)
    requires InRange(s) && WorkerInRange(w) && CountersOk(s, w, t) && Acting(w.pc)
    ensures var r := Act(s, w); CountersOk(r.0, r.1, TallyWork(w, t))
  {
    hide IsLoopbackWrite;
    if w.pc.StoreErrors? {
      ModSuccessor(t.now.errors - t.now.overwritten - t.since);
    }
  }

  lemma OtherCounted(board: Board, ticks: u32, s: Shared, w: Worker, t: Tally)
    requires InRange(s) && WorkerInRange(w) && !Acting(w.pc)
    ensures var r, t' := Work(board, ticks, s, w), TallyWork(w, t);
      && r.0.transactionCount == s.transactionCount && r.0.errorCount == s.errorCount
      && !r.1.pc.StoreErrors? && t'.now == t.now
  {
    hide Filled;
  }

  lemma WorkCounted(board: Board, ticks: u32, s: Shared, w: Worker, t: Tally)
    requires InRange(s) && WorkerInRange(w) && CountersOk(s, w, t)
    ensures var r := Work(board, ticks, s, w); CountersOk(r.0, r.1, TallyWork(w, t))
  {
    hide TallyWork;
    if Acting(w.pc) {
      hide Act, CountersOk;
      ActCounted(s, w, t);
    } else {
      hide Work;
      OtherCounted(board, ticks, s, w, t);
    }
  }

  /** A bank that got its counters, and then its clock, shows them. */
  lemma FilledImage(b: Block, transactions: u32, errors: u32, ticks: u32)
    ensures var r := Overlay(Overlay(Overlay(b, 10, Le32(transactions)), 14, Le32(errors)), 18, Le32(ticks));
      r[10..14] == Le32(transactions) && r[14..18] == Le32(errors)
  {
    hide Overlay, Le32;
    var b1 := Overlay(b, 10, Le32(transactions));
    var b2 := Overlay(b1, 14, Le32(errors));
    OverlayParts(b, 10, Le32(transactions));
    OverlayParts(b1, 14, Le32(errors));
    OverlayParts(b2, 18, Le32(ticks));
  }

  lemma WorkFilled(board: Board, ticks: u32, s: Shared, w: Worker, o: Seen, t: Tally)
    requires InRange(s) && WorkerInRange(w) && CountersOk(s, w, t) && FilledOk(s, w, t) && BanksOk(board, s, w, o)
    ensures var r := Work(board, ticks, s, w); FilledOk(r.0, r.1, TallyWork(w, t))
  {
    hide Act, IsImage, Overlay, Identity, Le32;
    if w.pc.FillTicks? {
      FilledImage(Identity(board.version, board.role), w.transactions, w.errors, ticks);
    }
  }

  lemma WorkTallied(board: Board, x: State, ticks: u32, t: Tally)
    requires StateInv(board, x) && TallyOk(x, t) && InRange(x.s) && WorkerInRange(x.w)
    ensures TallyOk(Step(board, x, OnWork(ticks)), TallyStep(x, OnWork(ticks), t))
  {
    hide BusOk, MailboxOk, TakenOk, SnapshotOk, CountersOk, ImageShows, BanksOk, Work;
    WorkCounted(board, ticks, x.s, x.w, t);
    WorkFilled(board, ticks, x.s, x.w, x.o, t);
    WorkImages(board, ticks, x.s, x.w);
  }

  lemma WorkImages(board: Board, ticks: u32, s: Shared, w: Worker)
    requires InRange(s) && WorkerInRange(w)
    ensures Work(board, ticks, s, w).0.transmitPointerValid == s.transmitPointerValid
  {
    hide Filled, Act, AfterCopy;
  }

  /** Every interrupt and every statement of the worker keeps counters and images in agreement with the
      tally. */
  lemma StepTallied(board: Board, x: State, e: Event, t: Tally)
    requires StateInv(board, x) && TallyOk(x, t)
    ensures InRange(x.s) && WorkerInRange(x.w)
    ensures TallyOk(Step(board, x, e), TallyStep(x, e, t))
  {
    hide StateInv;
    InRangeOf(board, x);
    match e {
      case OnInterrupt(i) => hide Step, TallyStep, TallyOk; InterruptTallied(board, x, i, t);
      case OnWork(ticks) => hide Step, TallyStep, TallyOk; WorkTallied(board, x, ticks, t);
      case OnDump(on) =>
    }
  }

  // ----- runs ---------------------------------------------------------------------------------

  const NOTHING := Counts(0, 0, 0)
  const NEW_TALLY := Tally(NOTHING, 0, NOTHING, NOTHING, NOTHING)

  ghost function Tallied(board: Board, states: seq<State>, events: seq<Event>, k: nat): Tally
    requires SlaveRun(board, states, events) && k <= |events|
    decreases k
  {
    if k == 0 then NEW_TALLY else
    assert StepAt(board, states, events, k - 1);
    TallyStep(states[k - 1], events[k - 1], Tallied(board, states, events, k - 1))
  }

  /** After i2c_slave_start, which publishes the counters at zero. */
  ghost predicate CountsFromZero(x: State) {
    && x.s.transactionCount == 0 && x.s.errorCount == 0
    && x.o.published[10..18] == [0, 0, 0, 0, 0, 0, 0, 0]
  }

  lemma StartTallied(board: Board, x: State)
    requires SlaveStarts(board, x) && CountsFromZero(x)
    ensures TallyOk(x, NEW_TALLY)
  {
    hide IsImage;
    var b := x.o.published;
    assert b[10..14] == b[10..18][..4] && b[14..18] == b[10..18][4..];
  }

  /** Over every run the counters are what was counted: modulo 2^32, the write transactions posted since
      the worker last cleared that counter, and the errors since it cleared the other, less those of
      the handler that fell between load and store of an increment of the worker. */
  lemma {:induction false} RunsAreTallied(board: Board, states: seq<State>, events: seq<Event>, k: nat)
    requires SlaveRun(board, states, events) && SlaveStarts(board, states[0]) && CountsFromZero(states[0]) && k <= |events|
    ensures TallyOk(states[k], Tallied(board, states, events, k))
    ensures var c := Tallied(board, states, events, k).now;
      && c.overwritten <= c.errors
      && states[k].s.transactionCount == c.transactions % 0x1_0000_0000
      && states[k].s.errorCount == (c.errors - c.overwritten) % 0x1_0000_0000
    decreases k
  {
    hide Step, StateInv, SlaveStarts, CountsFromZero, TallyStep, ImageShows, FilledOk;
    if k == 0 {
      StartTallied(board, states[0]);
    } else {
      RunsAreTallied(board, states, events, k - 1);
      SlaveRunsKeep(board, states, events, k - 1);
      assert StepAt(board, states, events, k - 1);
      StepTallied(board, states[k - 1], events[k - 1], Tallied(board, states, events, k - 1));
    }
  }

  /** And what a master reads of them: a read of registers 10 to 17 yields both counters, low byte first, as
      they were when the frozen image was built, unless a publish began after the first flip since its
      pointer byte. */
  lemma MasterReadsCounters(board: Board, states: seq<State>, events: seq<Event>, k: nat)
    requires SlaveRun(board, states, events) && SlaveStarts(board, states[0]) && CountsFromZero(states[0]) && k <= |events|
    requires states[k].s.transmitPointerValid && !states[k].s.transmitLoopback && !states[k].o.publishedAgain
    requires states[k].o.current.start == 10 && |states[k].o.current.read| >= 8
    ensures var c, read := Tallied(board, states, events, k).frozen, states[k].o.current.read;
      && c.overwritten <= c.errors
      && read[..4] == Le32(c.transactions % 0x1_0000_0000)
      && read[4..8] == Le32((c.errors - c.overwritten) % 0x1_0000_0000)
  {
    hide Step, StateInv, SlaveStarts, CountsFromZero, TallyStep, CountersOk, FilledOk, Le32, StepAt;
    RunsAreTallied(board, states, events, k);
    ReadsSeeOneImage(board, states, events, k);
    var o := states[k].o;
    assert o.current.read[..4] == o.frozen[10..14];
    assert o.current.read[4..8] == o.frozen[14..18];
  }

  // ----- what the worker does with a kept capture ---------------------------------------------

  /** The command to clear the counters: one byte, 1, written to register 0x40. */
  predicate IsCommand(c: Capture) { c == Capture(Write, 0x40, [1]) }

  /** A write that lies in the loopback window as a whole. */
  predicate InWindow(c: Capture) { 0x80 <= c.register < 0xC0 && c.register + |c.bytes| <= 0xC0 }

  predicate IsMistake(c: Capture) { c.direction == Write && !IsCommand(c) && !InWindow(c) }

  /** The checks a capture has passed tell what it is. */
  ghost predicate OnPath(pc: Pc, c: Capture) {
    && (pc.CheckCount? || pc.CheckByte? ==> c.direction == Write && c.register == 0x40)
    && (pc.CheckByte? ==> |c.bytes| == 1)
    && (pc.CheckFull? ==> !IsCommand(c))
    && (pc.ClearTransactions? || pc.ClearErrors? ==> IsCommand(c))
    && (pc.LoadErrors? || pc.StoreErrors? ==> IsMistake(c))
  }

  ghost predicate Course(s: Shared, w: Worker, c: Capture, n: nat) {
    || (Boxed(s, w, c) && n == ToPend(w.pc) + 9 + ToCleared(ReadRegister, c))
    || (Noticed(s, w, c) && n == ToCleared(w.pc, c) + 8 && OnPath(w.pc, c))
  }

  lemma ActOnPath(s: Shared, w: Worker, c: Capture)
    requires InRange(s) && WorkerInRange(w) && Noticed(s, w, c) && Acting(w.pc) && OnPath(w.pc, c)
    ensures OnPath(Act(s, w).1.pc, c)
  {
    assert c.bytes[0] == s.pendingBuffer[0];
    assert |c.bytes| == 1 ==> c.bytes == [c.bytes[0]];
  }

  lemma CourseWork(board: Board, ticks: u32, s: Shared, w: Worker, c: Capture, n: nat)
    requires InRange(s) && WorkerInRange(w) && Course(s, w, c, n) && n > 9
    ensures var r := Work(board, ticks, s, w); Course(r.0, r.1, c, n - 1)
  {
    hide MailboxCapture, CopyOk, Act, FromRegister, FromCount, FromByte, FromFull, IsMistake, IsCommand, Filled;
    if Boxed(s, w, c) && n == ToPend(w.pc) + 9 + ToCleared(ReadRegister, c) {
      BoxedWork(board, ticks, s, w, c);
    } else {
      NoticedWork(board, ticks, s, w, c);
      if Acting(w.pc) {
        ActOnPath(s, w, c);
      }
    }
  }

  lemma CourseStep(board: Board, x: State, e: Event, c: Capture, n: nat)
    requires StateInv(board, x) && InRange(x.s) && WorkerInRange(x.w) && Course(x.s, x.w, c, n)
    requires e.OnWork? ==> n > 9
    ensures var x' := Step(board, x, e); Course(x'.s, x'.w, c, if e.OnWork? then n - 1 else n)
  {
    hide StateInv, MailboxCapture, CopyOk, Work, Handle, See, SeeWork, OnPath, ToCleared;
    if e.OnWork? {
      CourseWork(board, e.ticks, x.s, x.w, c, n);
    } else {
      InterruptLeaves(board, x, e);
      SameCapture(x.s, Step(board, x, e).s);
    }
  }

  /** Near the end of its course each kind of capture has its statements. */
  lemma CourseEnds(s: Shared, w: Worker, c: Capture, n: nat)
    requires Course(s, w, c, n)
    ensures n >= 9
    ensures IsCommand(c) && n == 11 ==> w.pc.ClearTransactions?
    ensures IsCommand(c) && n == 10 ==> w.pc.ClearErrors?
    ensures IsMistake(c) && n == 11 ==> w.pc.LoadErrors?
    ensures IsMistake(c) && n == 10 ==> w.pc.StoreErrors?
    ensures !IsCommand(c) ==> !w.pc.ClearTransactions? && !w.pc.ClearErrors?
    ensures !IsMistake(c) ==> !w.pc.LoadErrors? && !w.pc.StoreErrors?
  {
    hide CopyOk;
  }

  lemma {:induction false} CourseOnRun(board: Board, states: seq<State>, events: seq<Event>, i: nat, k: nat, c: Capture, n: nat)
    requires SlaveRun(board, states, events) && SlaveStarts(board, states[0]) && i <= k <= |events|
    requires Course(states[i].s, states[i].w, c, n) && Worked(events, i, k) + 9 <= n
    ensures Course(states[k].s, states[k].w, c, n - Worked(events, i, k))
    decreases k
  {
    hide Step, StateInv, IsImage, SlaveStarts, Course;
    if i < k {
      CourseOnRun(board, states, events, i, k - 1, c, n);
      SlaveRunsKeep(board, states, events, k - 1);
      assert StepAt(board, states, events, k - 1);
      CourseStep(board, states[k - 1], events[k - 1], c, n - Worked(events, i, k - 1));
    }
  }

  /** Worker statements from the post of a kept capture until the mailbox is cleared of it, and eight more
      until it is printed. */
  function CourseLength(pc: Pc, c: Capture): nat { ToPend(pc) + 9 + ToCleared(ReadRegister, c) }

  /** Over every run, a kept capture is acted on, whatever happens between: the command clears the
      transaction counter ten statements before the capture is printed and the error counter nine
      before; a write that is neither the command nor in the loopback window is added to the error
      counter nine before; and up to the clearing of the mailbox the worker leaves the counters alone
      otherwise. */
  lemma KeptIsActedOn(board: Board, states: seq<State>, events: seq<Event>, i: nat, k: nat)
    requires SlaveRun(board, states, events) && SlaveStarts(board, states[0]) && i < k < |events|
    requires StepAt(board, states, events, i) && PostsAt(states[i], events[i]) && !Taking(states[i].w.pc)
    requires events[k].OnWork? && Worked(events, i + 1, k) + 9 <= CourseLength(states[i].w.pc, PostedBy(states[i], events[i]))
    ensures var c := PostedBy(states[i], events[i]);
      var left := CourseLength(states[i].w.pc, c) - Worked(events, i + 1, k);
      var s, s' := states[k].s, states[k + 1].s;
      && (IsCommand(c) && left == 11 ==> s'.transactionCount == 0)
      && (IsCommand(c) && left == 10 ==> s'.errorCount == 0)
      && (IsMistake(c) && left == 10 ==> s'.errorCount == Add32(states[k].w.loaded, 1))
      && (!IsCommand(c) || left != 11 ==> s'.transactionCount == s.transactionCount)
      && (!(left == 10 && (IsCommand(c) || IsMistake(c))) ==> s'.errorCount == s.errorCount)
  {
    hide Step, StateInv, IsImage, SlaveStarts, PostsAt, PostedBy, Course, Boxed, IsCommand, IsMistake, Worked, CourseLength;
    var c := PostedBy(states[i], events[i]);
    var n := CourseLength(states[i].w.pc, c);
    SlaveRunsKeep(board, states, events, i);
    PostIsBoxed(board, states[i], events[i]);
    BoxedOnCourse(states[i + 1].s, states[i + 1].w, c);
    CourseOnRun(board, states, events, i + 1, k, c, n);
    assert StepAt(board, states, events, k);
    CourseActs(board, states[k], events[k], c, n - Worked(events, i + 1, k));
  }

  lemma BoxedOnCourse(s: Shared, w: Worker, c: Capture)
    requires Boxed(s, w, c)
    ensures Course(s, w, c, CourseLength(w.pc, c))
  {
  }

  lemma CourseActs(board: Board, x: State, e: Event, c: Capture, n: nat)
    requires InRange(x.s) && WorkerInRange(x.w) && Course(x.s, x.w, c, n) && e.OnWork?
    ensures var s, s' := x.s, Step(board, x, e).s;
      && (IsCommand(c) && n == 11 ==> s'.transactionCount == 0)
      && (IsCommand(c) && n == 10 ==> s'.errorCount == 0)
      && (IsMistake(c) && n == 10 ==> s'.errorCount == Add32(x.w.loaded, 1))
      && (!IsCommand(c) || n != 11 ==> s'.transactionCount == s.transactionCount)
      && (!(n == 10 && (IsCommand(c) || IsMistake(c))) ==> s'.errorCount == s.errorCount)
  {
    hide SeeWork, Filled, AfterCopy, AfterCheck, Course, IsCommand, IsMistake;
    CourseEnds(x.s, x.w, c, n);
    CourseAt(x.s, x.w, c, n);
  }

  lemma CourseAt(s: Shared, w: Worker, c: Capture, n: nat)
    requires Course(s, w, c, n)
    ensures w.pc.ClearTransactions? ==> n == 11
    ensures w.pc.ClearErrors? || w.pc.StoreErrors? ==> n == 10
  {
    hide CopyOk, MailboxCapture, OnPath;
  }

  // ----- a run that overwrites an error -------------------------------------------------------

  const ADDRESS: Event := OnInterrupt(Interrupt(FirstByte(0), false))
  const VALUE: Event := OnInterrupt(Interrupt(NextByte(7), true))
  const WRITTEN := Capture(Write, 0, [7])

  /** The master writes to register 0, the worker takes the capture and loads the error counter, the master
      writes again, the worker stores. */
  const OVERWRITING: seq<Event> :=
    [ADDRESS, VALUE,
     OnWork(0), OnWork(0), OnWork(0), OnWork(0), OnWork(0), OnWork(0), OnWork(0),
     ADDRESS, VALUE, OnWork(0)]

  lemma {:induction false} BuildRun(board: Board, x: State, events: seq<Event>) returns (states: seq<State>)
    requires StateInv(board, x)
    ensures SlaveRun(board, states, events) && states[0] == x
    decreases |events|
  {
    hide StateInv, Step;
    states := [x];
    if events != [] {
      var x1 := OneRunStep(board, x, events[0]);
      var more := BuildRun(board, x1, events[1..]);
      states := [x] + more;
      forall i | 0 <= i < |events| ensures StepAt(board, states, events, i) {
        if i > 0 {
          assert StepAt(board, more, events[1..], i - 1);
        }
      }
    }
  }

  /** The master writes one byte to register 0. */
  lemma WriteOne(board: Board, x: State, x1: State, t: Tally)
    requires StateInv(board, x) && InRange(x.s) && WorkerInRange(x.w) && x1 == Step(board, x, ADDRESS)
    ensures InRange(x1.s) && WorkerInRange(x1.w) && x1.w == x.w && x1.s.pendingCount == x.s.pendingCount
    ensures var t2 := TallyStep(x1, VALUE, TallyStep(x, ADDRESS, t));
      if x.s.pendingCount != 0 then t2.now == t.now.(errors := t.now.errors + 1) && t2.since == t.since + 1
      else t2.now.errors == t.now.errors && t2.now.overwritten == t.now.overwritten
    ensures x.s.pendingCount == 0 ==> PostsAt(x1, VALUE) && PostedBy(x1, VALUE) == WRITTEN
    ensures WorkerInRange(Step(board, x1, VALUE).w) && Step(board, x1, VALUE).w == x.w
  {
    hide StateInv;
  }

  lemma {:induction false} SteadyTally(board: Board, states: seq<State>, k: nat)
    requires SlaveRun(board, states, OVERWRITING) && SlaveStarts(board, states[0]) && 2 <= k <= 9
    requires Course(states[2].s, states[2].w, WRITTEN, 17)
    ensures Course(states[k].s, states[k].w, WRITTEN, 19 - k)
    ensures Tallied(board, states, OVERWRITING, k).now == Tallied(board, states, OVERWRITING, 2).now
    ensures k == 9 ==> Tallied(board, states, OVERWRITING, k).since == 0
    decreases k
  {
    hide Step, StateInv, SlaveStarts, Course, TallyWork;
    if k > 2 {
      SteadyTally(board, states, k - 1);
      SlaveRunsKeep(board, states, OVERWRITING, k - 1);
      assert StepAt(board, states, OVERWRITING, k - 1);
      assert OVERWRITING[k - 1] == OnWork(0);
      CourseStep(board, states[k - 1], OnWork(0), WRITTEN, 20 - k);
      CourseTally(states[k - 1].s, states[k - 1].w, Tallied(board, states, OVERWRITING, k - 1), 20 - k);
    }
  }

  lemma CourseTally(s: Shared, w: Worker, t: Tally, n: nat)
    requires Course(s, w, WRITTEN, n) && n >= 11
    ensures TallyWork(w, t).now == t.now && (n == 11 ==> TallyWork(w, t).since == 0)
  {
    hide Course;
    CourseEnds(s, w, WRITTEN, n);
    CourseAt(s, w, WRITTEN, n);
  }

  /** The first write is posted and starts its course. */
  lemma FirstWrite(board: Board, states: seq<State>)
    requires SlaveRun(board, states, OVERWRITING) && SlaveStarts(board, states[0])
    ensures Course(states[2].s, states[2].w, WRITTEN, 17)
    ensures Tallied(board, states, OVERWRITING, 2).now.errors == 0 == Tallied(board, states, OVERWRITING, 2).now.overwritten
  {
    hide Step, StateInv, IsImage, Course, TallyStep, PostsAt, PostedBy, Boxed;
    assert StepAt(board, states, OVERWRITING, 0) && StepAt(board, states, OVERWRITING, 1);
    SlaveRunsKeep(board, states, OVERWRITING, 0);
    SlaveRunsKeep(board, states, OVERWRITING, 1);
    WriteOne(board, states[0], states[1], NEW_TALLY);
    PostIsBoxed(board, states[1], VALUE);
    BoxedOnCourse(states[2].s, states[2].w, WRITTEN);
    assert CourseLength(Pend, WRITTEN) == 17;
    TalliedTwice(board, states, OVERWRITING, 0);
  }

  lemma TalliedTwice(board: Board, states: seq<State>, events: seq<Event>, k: nat)
    requires SlaveRun(board, states, events) && k + 2 <= |events|
    requires StepAt(board, states, events, k) && StepAt(board, states, events, k + 1)
    ensures Tallied(board, states, events, k + 2)
         == TallyStep(states[k + 1], events[k + 1], TallyStep(states[k], events[k], Tallied(board, states, events, k)))
  {
    hide Step, TallyStep;
  }

  /** From every start state: two errors happen, a mistaken write and one dropped on a full mailbox, and the
      counter says one. */
  lemma OverwritingRun(board: Board, x: State) returns (states: seq<State>)
    requires SlaveStarts(board, x) && CountsFromZero(x)
    ensures SlaveRun(board, states, OVERWRITING) && states[0] == x
    ensures Tallied(board, states, OVERWRITING, 12).now.errors == 2 && states[12].s.errorCount == 1
  {
    hide Step, StateInv, IsImage, Course, TallyStep, PostsAt, PostedBy, SlaveStarts, CountsFromZero;
    SlaveRunsKeep(board, [x], [], 0);
    states := BuildRun(board, x, OVERWRITING);
    FirstWrite(board, states);
    SteadyTally(board, states, 9);
    SlaveRunsKeep(board, states, OVERWRITING, 9);
    assert StepAt(board, states, OVERWRITING, 9) && StepAt(board, states, OVERWRITING, 10);
    assert StepAt(board, states, OVERWRITING, 11);
    CourseEnds(states[9].s, states[9].w, WRITTEN, 10);
    NoticedAtEnd(states[9].s, states[9].w, 10);
    WriteOne(board, states[9], states[10], Tallied(board, states, OVERWRITING, 9));
    TalliedTwice(board, states, OVERWRITING, 9);
    StoreTally(states[11], Tallied(board, states, OVERWRITING, 11));
    RunsAreTallied(board, states, OVERWRITING, 12);
  }

  lemma StoreTally(x: State, t: Tally)
    requires InRange(x.s) && x.w.pc.StoreErrors?
    ensures var t' := TallyStep(x, OnWork(0), t);
      t'.now.errors == t.now.errors + 1 && t'.now.overwritten == t.now.overwritten + t.since
  {
  }

  lemma NoticedAtEnd(s: Shared, w: Worker, n: nat)
    requires Course(s, w, WRITTEN, n)
    ensures s.pendingCount != 0
  {
    hide MailboxCapture, CopyOk;
  }
}
