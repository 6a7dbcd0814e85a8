/** What becomes of a capture that the handler posts: exactly which ones the worker prints. */
module I2cFate {
  import opened Words
  import opened I2cSlave
  import opened I2cTheorems

  // ----- the two fates ------------------------------------------------------------------------

  /** In the mailbox, and the worker has not looked at it yet. */
  ghost predicate Boxed(s: Shared, w: Worker, c: Capture) {
    0 < s.pendingCount <= REGISTER_COUNT && MailboxCapture(s) == c && !Taking(w.pc)
  }

  /** In the mailbox, and the worker has seen it. */
  ghost predicate Noticed(s: Shared, w: Worker, c: Capture) {
    && 0 < s.pendingCount <= REGISTER_COUNT && MailboxCapture(s) == c
    && Taking(w.pc) && w.dumpCount == s.pendingCount && CopyOk(w, c)
  }

  /** In the worker's own buffer, on its way to the print statement. */
  ghost predicate Held(w: Worker, c: Capture) {
    !Taking(w.pc) && !w.pc.Pend? && w.dumpCount != 0 && CopyOk(w, c)
  }

  ghost predicate Kept(s: Shared, w: Worker, c: Capture) {
    Boxed(s, w, c) || Noticed(s, w, c) || Held(w, c)
  }

  /** In the mailbox, and the worker is about to clear it, having found it empty. */
  ghost predicate Doomed(s: Shared, w: Worker, c: Capture) {
    && 0 < s.pendingCount <= REGISTER_COUNT && MailboxCapture(s) == c
    && Taking(w.pc) && w.dumpCount == 0
  }

  /** The event is the worker's print statement, with this capture. */
  ghost predicate Prints(x: State, e: Event, c: Capture) {
    && e.OnWork? && x.w.pc == Dump && 0 < x.w.dumpCount <= REGISTER_COUNT
    && Capture(x.w.dumpDirection, x.w.dumpRegister, x.w.dumpBuffer[..x.w.dumpCount]) == c
  }

  /** The event clears the mailbox, and this round of the worker prints nothing. */
  ghost predicate Clears(x: State, e: Event, x': State) {
    e.OnWork? && x.w.pc == Clear && x.w.dumpCount == 0 && x'.s.pendingCount == 0 && x'.w.dumpCount == 0
  }

  ghost predicate PostsAt(x: State, e: Event)
    requires InRange(x.s)
  {
    e.OnInterrupt? && e.e.stop && Posts(OnData(x.s, e.e.data))
  }

  /** What the transaction that ends with this event leaves in the mailbox. */
  ghost function PostedBy(x: State, e: Event): Capture
    requires InRange(x.s) && PostsAt(x, e)
  {
    var t := SeeData(x.s, x.o, e.e.data).current;
    if OnData(x.s, e.e.data).receiveCount != 0 then WriteCapture(t) else ReadCapture(t)
  }

  lemma PostFills(board: Board, x: State, e: Event)
    requires StateInv(board, x)
    ensures InRange(x.s) && WorkerInRange(x.w)
    ensures PostsAt(x, e) ==>
      var x' := Step(board, x, e);
      && x.s.pendingCount == 0 && x'.w == x.w
      && 0 < x'.s.pendingCount <= REGISTER_COUNT && MailboxCapture(x'.s) == PostedBy(x, e)
  {
    hide BusOk, TakenOk, BanksOk, SnapshotOk, OnStop, SeeStop, WriteCapture, ReadCapture, MailboxCapture, OnData, SeeData,
         MailboxOk, Posts;
    if PostsAt(x, e) {
      var s, o := OnData(x.s, e.e.data), SeeData(x.s, x.o, e.e.data);
      DataKeeps(board, x.s, x.w, x.o, e.e.data);
      StopMailbox(s, o);
      DataLeaves(x.s, x.o, e.e.data);
      PostsToEmpty(s);
    }
  }

  lemma PostsToEmpty(s: Shared)
    requires Posts(s)
    ensures s.pendingCount == 0
  {
  }

  /** The fate of a capture is decided when it is posted: by whether the worker is between reading the
      count of the mailbox and clearing it. */
  lemma PostFate(board: Board, x: State, e: Event)
    requires StateInv(board, x) && InRange(x.s) && WorkerInRange(x.w) && PostsAt(x, e)
    ensures var x', c := Step(board, x, e), PostedBy(x, e);
      && (Boxed(x'.s, x'.w, c) <==> !Taking(x.w.pc))
      && (Doomed(x'.s, x'.w, c) <==> Taking(x.w.pc))
  {
    hide BusOk, MailboxOk, BanksOk, SnapshotOk, CopyOk, Step, PostedBy, PostsAt, MailboxCapture;
    PostFills(board, x, e);
  }

  // ----- the way to the print statement -------------------------------------------------------

  /** Statements of the worker until it waits again, from the end of its use of the mailbox on. */
  function ToPend(pc: Pc): nat {
    match pc
    case DropBank => 8
    case PickBank => 7
    case FillIdentity => 6
    case FillTransactions => 5
    case FillErrors => 4
    case FillTicks => 3
    case Flip => 2
    case Dump => 1
    case _ => 0
  }

  /** Statements of the checks a capture goes through, from each of them on. */
  function FromFull(c: Capture): nat {
    1 + (if c.direction == Write && !IsLoopbackWrite(c.register, Count(c)) then 2 else 0)
  }

  function FromByte(c: Capture): nat {
    1 + (if c.bytes != [] && c.bytes[0] == CLEAR_STATS then 2 else FromFull(c))
  }

  function FromCount(c: Capture): nat {
    1 + (if |c.bytes| == 1 then FromByte(c) else FromFull(c))
  }

  function FromRegister(c: Capture): nat {
    1 + (if c.direction == Write && c.register == COMMAND_REGISTER then FromCount(c) else FromFull(c))
  }

  function Count(c: Capture): u8 { if |c.bytes| < 0x100 then |c.bytes| else 0 }

  /** Statements of the worker until it has cleared the mailbox of this capture. */
  function ToCleared(pc: Pc, c: Capture): nat {
    match pc
    case ReadRegister => 3 + |c.bytes| + FromRegister(c)
    case ReadDirection => 2 + |c.bytes| + FromRegister(c)
    case Copying(i) => 1 + (if i < |c.bytes| then |c.bytes| - i else 0) + FromRegister(c)
    case CheckRegister => 1 + FromRegister(c)
    case CheckCount => 1 + FromCount(c)
    case CheckByte => 1 + FromByte(c)
    case CheckFull => 1 + FromFull(c)
    case ClearTransactions => 3
    case LoadErrors => 3
    case ClearErrors => 2
    case StoreErrors => 2
    case Clear => 1
    case _ => 0
  }

  /** The capture is printed by the n-th statement of the worker from now on. */
  ghost predicate Ahead(s: Shared, w: Worker, c: Capture, n: nat) {
    || (Boxed(s, w, c) && n == ToPend(w.pc) + 1 + ToCleared(ReadRegister, c) + 8)
    || (Noticed(s, w, c) && n == ToCleared(w.pc, c) + 8)
    || (Held(w, c) && n == ToPend(w.pc))
  }

  /** An interrupt touches neither the worker nor a full mailbox. */
  lemma InterruptLeaves(board: Board, x: State, e: Event)
    requires StateInv(board, x) && InRange(x.s) && WorkerInRange(x.w) && !e.OnWork?
    ensures var x' := Step(board, x, e);
      x'.w == x.w && (x.s.pendingCount != 0 ==> SameMailbox(x.s, x'.s))
  {
    hide BusOk, MailboxOk, TakenOk, BanksOk, SnapshotOk, OnData, SeeData, OnStop, SeeStop, SameMailbox;
    if e.OnInterrupt? {
      var s := OnData(x.s, e.e.data);
      DataLeaves(x.s, x.o, e.e.data);
      if x.s.pendingCount != 0 {
        StopLeaves(x.s, s);
      }
    } else {
      DumpLeaves(x.s, e.on);
    }
  }

  lemma StopLeaves(s: Shared, t: Shared)
    requires InRange(t) && SameMailbox(s, t) && s.pendingCount != 0
    ensures SameMailbox(s, OnStop(t))
  {
    hide Overlay;
  }

  lemma DumpLeaves(s: Shared, on: bool)
    ensures SameMailbox(s, s.(dumpEnabled := on))
  {
  }

  lemma AheadInterrupt(board: Board, x: State, e: Event, c: Capture, n: nat)
    requires StateInv(board, x) && InRange(x.s) && WorkerInRange(x.w) && !e.OnWork? && Ahead(x.s, x.w, c, n)
    ensures var x' := Step(board, x, e); Ahead(x'.s, x'.w, c, n)
  {
    hide BusOk, MailboxOk, TakenOk, BanksOk, SnapshotOk, Step, CopyOk, MailboxCapture;
    InterruptLeaves(board, x, e);
    var x' := Step(board, x, e);
    if 0 < x.s.pendingCount <= REGISTER_COUNT {
      SameCapture(x.s, x'.s);
    }
  }

  lemma BoxedWork(board: Board, ticks: u32, s: Shared, w: Worker, c: Capture)
    requires InRange(s) && WorkerInRange(w) && Boxed(s, w, c)
    ensures var r := Work(board, ticks, s, w);
      if w.pc.Pend? then Noticed(r.0, r.1, c) && r.1.pc.ReadRegister?
      else Boxed(r.0, r.1, c) && ToPend(r.1.pc) == ToPend(w.pc) - 1
  {
    hide Filled, MailboxCapture, Act;
    SameCapture(s, Work(board, ticks, s, w).0);
    CaptureLength(s);
  }

  lemma CaptureLength(s: Shared)
    requires s.pendingCount <= REGISTER_COUNT
    ensures |MailboxCapture(s).bytes| == s.pendingCount
  {
  }

  lemma NoticedAct(board: Board, ticks: u32, s: Shared, w: Worker, c: Capture)
    requires InRange(s) && WorkerInRange(w) && Noticed(s, w, c) && Acting(w.pc)
    ensures var r := Work(board, ticks, s, w);
      Noticed(r.0, r.1, c) && ToCleared(r.1.pc, c) == ToCleared(w.pc, c) - 1
  {
    var r := Act(s, w);
    assert c.bytes[0] == s.pendingBuffer[0];
  }

  lemma NoticedWork(board: Board, ticks: u32, s: Shared, w: Worker, c: Capture)
    requires InRange(s) && WorkerInRange(w) && Noticed(s, w, c)
    ensures var r := Work(board, ticks, s, w);
      if w.pc.Clear? then Held(r.1, c) && ToPend(r.1.pc) == 8
      else Noticed(r.0, r.1, c) && ToCleared(r.1.pc, c) == ToCleared(w.pc, c) - 1
  {
    hide Act, FromRegister, FromCount, FromByte, FromFull;
    if Acting(w.pc) {
      NoticedAct(board, ticks, s, w, c);
    } else {
      match w.pc {
        case ReadDirection => CopyStart(w, c);
        case Copying(i) => CopyStep(w, c, s.pendingBuffer[i]);
        case _ =>
      }
    }
  }

  lemma HeldWork(board: Board, ticks: u32, s: Shared, w: Worker, c: Capture)
    requires InRange(s) && WorkerInRange(w) && Held(w, c)
    ensures var r := Work(board, ticks, s, w);
      && (!w.pc.Dump? ==> Held(r.1, c) && ToPend(r.1.pc) == ToPend(w.pc) - 1)
      && (w.pc.Dump? ==> Capture(w.dumpDirection, w.dumpRegister, w.dumpBuffer[..w.dumpCount]) == c)
  {
    hide Filled, Act;
    CopyLater(w, Work(board, ticks, s, w).1, c);
  }

  /** Every step of the worker brings a kept capture one statement nearer to being printed, and nothing
      else changes its way. */
  lemma KeptStep(board: Board, x: State, e: Event, c: Capture, n: nat)
    requires StateInv(board, x) && InRange(x.s) && WorkerInRange(x.w) && Ahead(x.s, x.w, c, n)
    ensures n > 0
    ensures var x' := Step(board, x, e);
      if !e.OnWork? then Ahead(x'.s, x'.w, c, n)
      else if n > 1 then Ahead(x'.s, x'.w, c, n - 1)
      else Prints(x, e, c)
  {
    hide StateInv, MailboxCapture, CopyOk, Work, Handle, See, SeeWork, FromRegister, FromCount, FromByte, FromFull;
    if e.OnWork? {
      if Boxed(x.s, x.w, c) && n == ToPend(x.w.pc) + 1 + ToCleared(ReadRegister, c) + 8 {
        BoxedWork(board, e.ticks, x.s, x.w, c);
      } else if Noticed(x.s, x.w, c) && n == ToCleared(x.w.pc, c) + 8 {
        NoticedWork(board, e.ticks, x.s, x.w, c);
      } else {
        HeldWork(board, e.ticks, x.s, x.w, c);
      }
    } else {
      AheadInterrupt(board, x, e, c, n);
    }
  }

  /** Statements of the worker until it clears a mailbox it has found empty: at most so many. */
  function ToDoom(pc: Pc): nat {
    match pc
    case ReadRegister => 9
    case ReadDirection => 8
    case CheckCount => 6
    case CheckByte => 5
    case CheckFull => 4
    case ClearTransactions => 3
    case LoadErrors => 3
    case ClearErrors => 2
    case StoreErrors => 2
    case Clear => 1
    case _ => 7
  }

  lemma CheckNearer(s: Shared, w: Worker)
    requires InRange(s) && WorkerInRange(w) && Acting(w.pc)
    ensures ToDoom(Act(s, w).1.pc) < ToDoom(w.pc)
  {
    hide IsLoopbackWrite;
  }

  /** A doomed capture stays in the mailbox until the worker clears it unseen. */
  lemma DoomedStep(board: Board, x: State, e: Event, c: Capture)
    requires StateInv(board, x) && InRange(x.s) && WorkerInRange(x.w) && Doomed(x.s, x.w, c)
    ensures var x' := Step(board, x, e);
      if e.OnWork? && x.w.pc.Clear? then Clears(x, e, x')
      else
        && Doomed(x'.s, x'.w, c)
        && ToDoom(x'.w.pc) <= ToDoom(x.w.pc) - (if e.OnWork? then 1 else 0)
    ensures forall d :: !Prints(x, e, d)
  {
    hide BusOk, MailboxOk, TakenOk, BanksOk, SnapshotOk, MailboxCapture, Handle, See, SeeWork, Publish, Act;
    var x' := Step(board, x, e);
    if !e.OnWork? {
      InterruptLeaves(board, x, e);
    } else if Acting(x.w.pc) {
      CheckNearer(x.s, x.w);
    }
    if !(e.OnWork? && x.w.pc.Clear?) {
      SameCapture(x.s, x'.s);
    }
  }

  // ----- runs ---------------------------------------------------------------------------------

  /** Statements of the worker among the events from i on, before k. */
  function Worked(events: seq<Event>, i: nat, k: nat): nat
    requires i <= k <= |events|
    decreases k
  {
    if i == k then 0 else Worked(events, i, k - 1) + (if events[k - 1].OnWork? then 1 else 0)
  }

  ghost predicate PrintedBetween(states: seq<State>, events: seq<Event>, i: nat, k: nat, c: Capture)
    requires |states| == |events| + 1 && k <= |events|
  {
    exists m | i <= m < k :: Prints(states[m], events[m], c)
  }

  lemma {:induction false} AheadIsPrinted(board: Board, states: seq<State>, events: seq<Event>, i: nat, k: nat, c: Capture, n: nat)
    requires SlaveRun(board, states, events) && SlaveStarts(board, states[0]) && i <= k <= |events|
    requires Ahead(states[i].s, states[i].w, c, n)
    ensures Worked(events, i, k) >= n ==> PrintedBetween(states, events, i, k, c)
    ensures Worked(events, i, k) < n ==> Ahead(states[k].s, states[k].w, c, n - Worked(events, i, k))
    decreases k
  {
    hide Step, StateInv, IsImage, SlaveStarts, Ahead, Prints;
    if i < k {
      AheadIsPrinted(board, states, events, i, k - 1, c, n);
      SlaveRunsKeep(board, states, events, k - 1);
      assert StepAt(board, states, events, k - 1);
      if Worked(events, i, k - 1) < n {
        KeptStep(board, states[k - 1], events[k - 1], c, n - Worked(events, i, k - 1));
      }
    } else {
      SlaveRunsKeep(board, states, events, i);
      AheadPositive(states[i].s, states[i].w, c, n);
    }
  }

  lemma AheadPositive(s: Shared, w: Worker, c: Capture, n: nat)
    requires Ahead(s, w, c, n)
    ensures n > 0
  {
    hide CopyOk, MailboxCapture;
  }

  lemma PostIsBoxed(board: Board, x: State, e: Event)
    requires StateInv(board, x) && InRange(x.s) && WorkerInRange(x.w) && PostsAt(x, e) && !Taking(x.w.pc)
    ensures var x', c := Step(board, x, e), PostedBy(x, e);
      Boxed(x'.s, x'.w, c) && x'.w == x.w && |c.bytes| <= REGISTER_COUNT
  {
    hide Step, StateInv, PostsAt, PostedBy, MailboxCapture;
    PostFills(board, x, e);
    PostFate(board, x, e);
    CaptureLength(Step(board, x, e).s);
  }

  lemma BoxedIsAhead(s: Shared, w: Worker, c: Capture)
    requires Boxed(s, w, c)
    ensures Ahead(s, w, c, ToPend(w.pc) + 9 + ToCleared(ReadRegister, c)) && ToPend(w.pc) <= 8
  {
  }

  lemma AheadIsKept(s: Shared, w: Worker, c: Capture, n: nat)
    requires Ahead(s, w, c, n)
    ensures Kept(s, w, c)
  {
  }

  lemma ClearedSoon(c: Capture)
    requires |c.bytes| <= REGISTER_COUNT
    ensures ToCleared(ReadRegister, c) <= 72
  {
  }

  /** Posted while the worker is not between reading the count and clearing it: whatever happens then,
      exactly that capture is printed, by the statement that is this many worker statements away. */
  lemma PostedIsPrinted(board: Board, states: seq<State>, events: seq<Event>, i: nat, k: nat)
    requires SlaveRun(board, states, events) && SlaveStarts(board, states[0]) && i < k <= |events|
    requires StepAt(board, states, events, i) && PostsAt(states[i], events[i]) && !Taking(states[i].w.pc)
    ensures var c := PostedBy(states[i], events[i]);
      var n := ToPend(states[i].w.pc) + 9 + ToCleared(ReadRegister, c);
      && n <= 89
      && (Worked(events, i + 1, k) >= n ==> PrintedBetween(states, events, i + 1, k, c))
      && (Worked(events, i + 1, k) < n ==> Kept(states[k].s, states[k].w, c))
  {
    hide Step, StateInv, IsImage, SlaveStarts, PostsAt, PostedBy, Worked, PrintedBetween, MailboxCapture,
         Ahead, Boxed, Kept, Doomed, ToPend, ToCleared;
    SlaveRunsKeep(board, states, events, i);
    PostIsBoxed(board, states[i], events[i]);
    var c := PostedBy(states[i], events[i]);
    ClearedSoon(c);
    var n := ToPend(states[i].w.pc) + 9 + ToCleared(ReadRegister, c);
    BoxedIsAhead(states[i + 1].s, states[i + 1].w, c);
    AheadIsPrinted(board, states, events, i + 1, k, c, n);
    if Worked(events, i + 1, k) < n {
      AheadIsKept(states[k].s, states[k].w, c, n - Worked(events, i + 1, k));
    }
  }

  /** The worker clears the mailbox at event m, unseen, and has printed nothing since event i. */
  ghost predicate LostAt(states: seq<State>, events: seq<Event>, i: nat, m: nat)
    requires |states| == |events| + 1 && i < m < |events|
  {
    Clears(states[m], events[m], states[m + 1]) && NothingPrinted(states, events, i, m)
  }

  ghost predicate NothingPrinted(states: seq<State>, events: seq<Event>, i: nat, k: nat)
    requires |states| == |events| + 1 && k <= |events|
  {
    forall m, d | i < m < k :: !Prints(states[m], events[m], d)
  }

  /** Posted between the two: it is cleared unseen, within nine statements of the worker, and until then
      nothing is printed. */
  lemma PostedIsLost(board: Board, states: seq<State>, events: seq<Event>, i: nat, k: nat)
    requires SlaveRun(board, states, events) && SlaveStarts(board, states[0]) && i < k <= |events|
    requires StepAt(board, states, events, i) && PostsAt(states[i], events[i]) && Taking(states[i].w.pc)
    ensures || (exists m | i < m < k :: LostAt(states, events, i, m))
            || (&& Doomed(states[k].s, states[k].w, PostedBy(states[i], events[i]))
                && NothingPrinted(states, events, i, k) && Worked(events, i + 1, k) < 9)
    ensures Worked(events, i + 1, k) >= 9 ==> exists m | i < m < k :: LostAt(states, events, i, m)
  {
    hide Step, StateInv, IsImage, SlaveStarts, PostsAt, PostedBy, Worked, LostAt;
    DoomedUntilLost(board, states, events, i, k);
  }

  lemma {:induction false} DoomedUntilLost(board: Board, states: seq<State>, events: seq<Event>, i: nat, k: nat)
    requires SlaveRun(board, states, events) && SlaveStarts(board, states[0]) && i < k <= |events|
    requires StepAt(board, states, events, i) && PostsAt(states[i], events[i]) && Taking(states[i].w.pc)
    ensures || (exists m | i < m < k :: LostAt(states, events, i, m))
            || (&& Doomed(states[k].s, states[k].w, PostedBy(states[i], events[i]))
                && NothingPrinted(states, events, i, k)
                && 0 < ToDoom(states[k].w.pc) <= 9 - Worked(events, i + 1, k))
    decreases k
  {
    hide Step, StateInv, IsImage, SlaveStarts, PostsAt, PostedBy, MailboxCapture, CopyOk, Prints;
    SlaveRunsKeep(board, states, events, i);
    PostFate(board, states[i], events[i]);
    PostFills(board, states[i], events[i]);
    if i + 1 < k {
      DoomedUntilLost(board, states, events, i, k - 1);
      assert StepAt(board, states, events, k - 1);
      SlaveRunsKeep(board, states, events, k - 1);
      if Doomed(states[k - 1].s, states[k - 1].w, PostedBy(states[i], events[i])) && NothingPrinted(states, events, i, k - 1) {
        DoomedStep(board, states[k - 1], events[k - 1], PostedBy(states[i], events[i]));
        if events[k - 1].OnWork? && states[k - 1].w.pc.Clear? {
          assert LostAt(states, events, i, k - 1);
        }
      }
    }
  }

  // ----- a run that loses a capture -----------------------------------------------------------

  /** The worker wakes up without work, the master writes one byte, the worker goes on. */
  function LosingEvents(register: u8, value: u8): seq<Event> {
    [OnWork(0), OnInterrupt(Interrupt(FirstByte(register), false)), OnInterrupt(Interrupt(NextByte(value), true))]
    + seq(9, i => OnWork(0))
  }

  lemma OneRunStep(board: Board, x: State, e: Event) returns (x': State)
    requires StateInv(board, x)
    ensures InRange(x.s) && WorkerInRange(x.w) && x' == Step(board, x, e) && StateInv(board, x')
  {
    hide StateInv, Step;
    InRangeOf(board, x);
    StepKeeps(board, x, e);
    x' := Step(board, x, e);
  }

  lemma WakesAndReceives(board: Board, x: State, register: u8, value: u8) returns (x1: State, x2: State)
    requires StateInv(board, x) && x.w.pc == Pend && x.s.pendingCount == 0
    ensures InRange(x.s) && WorkerInRange(x.w) && x1 == Step(board, x, OnWork(0)) && StateInv(board, x1)
    ensures InRange(x1.s) && WorkerInRange(x1.w)
    ensures x2 == Step(board, x1, OnInterrupt(Interrupt(FirstByte(register), false))) && StateInv(board, x2)
    ensures InRange(x2.s) && WorkerInRange(x2.w)
    ensures x2.w.pc == ReadRegister && x2.o.current == Txn(register, [], [])
    ensures PostsAt(x2, OnInterrupt(Interrupt(NextByte(value), true)))
    ensures PostedBy(x2, OnInterrupt(Interrupt(NextByte(value), true))) == Capture(Write, register, [value])
  {
    hide StateInv, Act, Publish;
    x1 := OneRunStep(board, x, OnWork(0));
    x2 := OneRunStep(board, x1, OnInterrupt(Interrupt(FirstByte(register), false)));
    InRangeOf(board, x2);
  }

  lemma {:induction false} WorkerGoesOn(board: Board, states: seq<State>, events: seq<Event>, n: nat) returns (states': seq<State>)
    requires SlaveRun(board, states, events) && StateInv(board, states[|events|])
    ensures SlaveRun(board, states', events + seq(n, i => OnWork(0)))
    ensures states'[..|states|] == states
    decreases n
  {
    hide StateInv, Step;
    states' := states;
    if n == 0 {
      assert events + seq(n, i => OnWork(0)) == events;
    } else {
      var x := OneRunStep(board, states[|events|], OnWork(0));
      OneRunMore(board, states, events, x);
      states' := WorkerGoesOn(board, states + [x], events + [OnWork(0)], n - 1);
      assert events + [OnWork(0)] + seq(n - 1, i => OnWork(0)) == events + seq(n, i => OnWork(0));
      assert states'[..|states|] == states'[..|states| + 1][..|states|];
    }
  }

  lemma OneRunMore(board: Board, states: seq<State>, events: seq<Event>, x: State)
    requires SlaveRun(board, states, events) && InRange(states[|events|].s) && WorkerInRange(states[|events|].w)
    requires x == Step(board, states[|events|], OnWork(0))
    ensures SlaveRun(board, states + [x], events + [OnWork(0)])
  {
    hide Step, InRange, WorkerInRange;
    var states', events' := states + [x], events + [OnWork(0)];
    forall i | 0 <= i < |events'| ensures StepAt(board, states', events', i) {
      if i < |events| {
        assert StepAt(board, states, events, i);
      }
    }
  }

  /** From every start state: the capture of a one-byte write is posted and cleared unseen. */
  lemma LosingRun(board: Board, x: State, register: u8, value: u8) returns (states: seq<State>)
    requires SlaveStarts(board, x)
    ensures var events := LosingEvents(register, value);
      && SlaveRun(board, states, events) && states[0] == x
      && StepAt(board, states, events, 2) && PostsAt(states[2], events[2])
      && PostedBy(states[2], events[2]) == Capture(Write, register, [value])
      && exists m | 2 < m < 12 :: LostAt(states, events, 2, m)
  {
    hide StateInv, Step, PostsAt, PostedBy, IsImage, LostAt;
    var events := LosingEvents(register, value);
    SlaveRunsKeep(board, [x], [], 0);
    var x1, x2 := WakesAndReceives(board, x, register, value);
    var x3 := OneRunStep(board, x2, events[2]);
    assert StepAt(board, [x, x1, x2, x3], events[..3], 0);
    assert StepAt(board, [x, x1, x2, x3], events[..3], 1);
    assert StepAt(board, [x, x1, x2, x3], events[..3], 2);
    states := WorkerGoesOn(board, [x, x1, x2, x3], events[..3], 9);
    assert events[..3] + seq(9, i => OnWork(0)) == events;
    assert states[0] == states[..4][0] && states[2] == states[..4][2];
    assert StepAt(board, states, events, 2);
    NineStatements(events, 12);
    PostedIsLost(board, states, events, 2, 12);
  }

  lemma {:induction false} NineStatements(events: seq<Event>, k: nat)
    requires 3 <= k <= |events| && forall i | 3 <= i < |events| :: events[i].OnWork?
    ensures Worked(events, 3, k) == k - 3
    decreases k
  {
    if k > 3 {
      NineStatements(events, k - 1);
    }
  }
}
