/** The loopback window: what a master writes there it reads back. */
module I2cLoopback {
  import opened Words
  import opened I2cSlave
  import opened I2cTheorems

  /** The window at a register; behind its end there are zeros. */
  function EchoAt(window: Block, register: u8): u8 {
    if InLoopback(register) then window[register - LOOPBACK] else 0
  }

  ghost predicate FromWindow(window: Block, start: u8, read: seq<u8>) {
    forall i | 0 <= i < |read| :: read[i] == EchoAt(window, (start + i) % 0x100)
  }

  /** A transaction that started in the window has read from the window as it is. */
  ghost predicate EchoOk(s: Shared, t: Txn) {
    s.transmitPointerValid ==>
      && (s.transmitLoopback <==> InLoopback(t.start))
      && (s.transmitLoopback ==> FromWindow(s.loopbackBuffer, t.start, t.read))
  }

  /** The transaction that ends with this event stores its bytes in the window. */
  predicate Stores(x: State, e: Event)
    requires InRange(x.s)
  {
    e.OnInterrupt? && e.e.stop &&
      var s := OnData(x.s, e.e.data);
      s.receiveCount != 0 && s.pendingCount == 0 && IsLoopbackWrite(s.registerPointer, s.receiveCount)
  }

  lemma DataEcho(s: Shared, o: Seen, d: Data)
    requires InRange(s) && BusOk(s, o.current) && EchoOk(s, o.current)
    ensures EchoOk(OnData(s, d), SeeData(s, o, d).current)
    ensures OnData(s, d).loopbackBuffer == s.loopbackBuffer
  {
    hide Folded;
  }

  lemma WorkEcho(board: Board, ticks: u32, s: Shared, w: Worker)
    requires InRange(s) && WorkerInRange(w)
    ensures var t := Work(board, ticks, s, w).0;
      && t.loopbackBuffer == s.loopbackBuffer && t.transmitLoopback == s.transmitLoopback
      && t.transmitPointerValid == s.transmitPointerValid
  {
    hide Filled;
  }

  /** Every step keeps the window, except the end of a transaction that stores into it. */
  lemma StepEcho(board: Board, x: State, e: Event)
    requires StateInv(board, x) && EchoOk(x.s, x.o.current)
    ensures InRange(x.s) && WorkerInRange(x.w)
    ensures var x' := Step(board, x, e);
      && EchoOk(x'.s, x'.o.current)
      && (!Stores(x, e) ==> x'.s.loopbackBuffer == x.s.loopbackBuffer)
  {
    hide BusOk, MailboxOk, TakenOk, BanksOk, SnapshotOk, OnData, SeeData, Work, FromWindow, Overlay;
    match e {
      case OnInterrupt(i) => DataEcho(x.s, x.o, i.data);
      case OnWork(ticks) => WorkEcho(board, ticks, x.s, x.w);
      case OnDump(on) =>
    }
  }

  /** The window after a transaction has stored its bytes. */
  ghost predicate StoredBy(t: Txn, before: Block, after: Block) {
    var at, data := (t.start + |t.read|) % 0x100, Accepted(t.written);
    && InLoopback(at) && at - LOOPBACK + |data| <= REGISTER_COUNT
    && after == Overlay(before, at - LOOPBACK, data)
  }

  /** A transaction that stores puts its bytes at its register, and leaves the rest of the window. */
  lemma StoreEcho(board: Board, x: State, e: Event)
    requires StateInv(board, x) && InRange(x.s) && WorkerInRange(x.w) && Stores(x, e)
    ensures StoredBy(SeeData(x.s, x.o, e.e.data).current, x.s.loopbackBuffer, Step(board, x, e).s.loopbackBuffer)
  {
    hide MailboxOk, TakenOk, BanksOk, SnapshotOk, OnData, SeeData, Overlay, Folded;
    DataBus(x.s, x.o, e.e.data);
    DataWindow(x.s, e.e.data);
  }

  lemma DataWindow(s: Shared, d: Data)
    requires InRange(s)
    ensures OnData(s, d).loopbackBuffer == s.loopbackBuffer
  {
    hide TransmitValue;
  }

  // ----- runs ---------------------------------------------------------------------------------

  lemma {:induction false} RunEcho(board: Board, states: seq<State>, events: seq<Event>, k: nat)
    requires SlaveRun(board, states, events) && SlaveStarts(board, states[0]) && k <= |events|
    ensures StateInv(board, states[k]) && EchoOk(states[k].s, states[k].o.current)
    decreases k
  {
    hide Step, StateInv, IsImage;
    SlaveRunsKeep(board, states, events, k);
    if k > 0 {
      RunEcho(board, states, events, k - 1);
      assert StepAt(board, states, events, k - 1);
      StepEcho(board, states[k - 1], events[k - 1]);
    }
  }

  /** Nothing is stored in the window from state i to state j. */
  ghost predicate Undisturbed(board: Board, states: seq<State>, events: seq<Event>, i: nat, j: nat)
    requires SlaveRun(board, states, events) && i <= j <= |events|
  {
    forall m | i <= m < j :: StepAt(board, states, events, m) && !Stores(states[m], events[m])
  }

  lemma {:induction false} WindowStays(board: Board, states: seq<State>, events: seq<Event>, i: nat, j: nat)
    requires SlaveRun(board, states, events) && SlaveStarts(board, states[0]) && i <= j <= |events|
    requires Undisturbed(board, states, events, i, j)
    ensures states[j].s.loopbackBuffer == states[i].s.loopbackBuffer
    decreases j
  {
    hide Step, StateInv, IsImage, SlaveStarts, Stores;
    if i < j {
      assert StepAt(board, states, events, j - 1);
      WindowStays(board, states, events, i, j - 1);
      RunEcho(board, states, events, j - 1);
      StepEcho(board, states[j - 1], events[j - 1]);
    }
  }

  /** Where byte k of the later transaction falls on a register the earlier one wrote, it is the byte
      written there. */
  ghost predicate ReadsBack(earlier: Txn, later: Txn, k: nat)
    requires k < |later.read|
  {
    var data, at := Accepted(earlier.written), (earlier.start + |earlier.read|) % 0x100;
    var register := (later.start + k) % 0x100;
    at <= register < at + |data| ==> later.read[k] == data[register - at]
  }

  lemma ReadStored(t: Txn, before: Block, after: Block, u: Txn, k: nat)
    requires StoredBy(t, before, after) && FromWindow(after, u.start, u.read) && k < |u.read|
    ensures ReadsBack(t, u, k)
  {
    hide Accepted;
  }

  /** The master writes bytes into the window and later reads some of it: whatever interrupts and
      worker statements come between, it gets its own bytes, until the next store. */
  lemma MasterReadsBack(board: Board, states: seq<State>, events: seq<Event>, i: nat, j: nat, k: nat)
    requires SlaveRun(board, states, events) && SlaveStarts(board, states[0]) && i < j <= |events|
    requires StepAt(board, states, events, i) && Stores(states[i], events[i])
    requires Undisturbed(board, states, events, i + 1, j)
    requires states[j].s.transmitPointerValid && states[j].s.transmitLoopback && k < |states[j].o.current.read|
    ensures ReadsBack(SeeData(states[i].s, states[i].o, events[i].e.data).current, states[j].o.current, k)
  {
    hide Step, StateInv, IsImage, SlaveStarts, Accepted, SeeData, ReadsBack, FromWindow, StoredBy, OnData, IsLoopbackWrite, Undisturbed;
    RunEcho(board, states, events, i);
    StoreEcho(board, states[i], events[i]);
    WindowStays(board, states, events, i + 1, j);
    RunEcho(board, states, events, j);
    assert states[i + 1] == Step(board, states[i], events[i]);
    ReadStored(SeeData(states[i].s, states[i].o, events[i].e.data).current,
               states[i].s.loopbackBuffer, states[j].s.loopbackBuffer, states[j].o.current, k);
  }

  // ----- the register file --------------------------------------------------------------------

  lemma OverlayParts(b: Block, at: nat, bytes: seq<u8>)
    requires at + |bytes| <= REGISTER_COUNT
    ensures var r := Overlay(b, at, bytes);
      && r[at..at + |bytes|] == bytes
      && (forall i, j | 0 <= i <= j <= at :: r[i..j] == b[i..j])
      && (forall i, j | at + |bytes| <= i <= j <= REGISTER_COUNT :: r[i..j] == b[i..j])
  {
  }

  /** The fields of a published image, where a master finds them. */
  lemma ImageFields(version: u32, role: u8, transactions: u32, errors: u32, ticks: u32)
    ensures var b := Image(version, role, transactions, errors, ticks);
      && b[0..5] == [0x49, 0x32, 0x43, 0x53, 1]
      && b[5..9] == Le32(version) && b[9..10] == [role]
      && b[10..14] == Le32(transactions) && b[14..18] == Le32(errors) && b[18..22] == Le32(ticks)
      && b[22..64] == seq(42, i => 0)
  {
    hide Le32, Overlay;
    var b0 := Overlay(Zero(), 0, [0x49, 0x32, 0x43, 0x53, 1]);
    var b1 := Overlay(b0, 5, Le32(version));
    var b2 := Overlay(b1, 9, [role]);
    var b3 := Overlay(b2, 10, Le32(transactions));
    var b4 := Overlay(b3, 14, Le32(errors));
    OverlayParts(Zero(), 0, [0x49, 0x32, 0x43, 0x53, 1]);
    OverlayParts(b0, 5, Le32(version));
    OverlayParts(b1, 9, [role]);
    OverlayParts(b2, 10, Le32(transactions));
    OverlayParts(b3, 14, Le32(errors));
    OverlayParts(b4, 18, Le32(ticks));
  }
}
