/** What holds under every placement of interrupts between the worker's statements. */
module I2cTheorems {
  import opened Words
  import opened I2cSlave

  // ----- what an observer of the bus sees -----------------------------------------------------

  /** The bytes of one master transaction since its register pointer. */
  datatype Txn = Txn(start: u8, written: seq<u8>, read: seq<u8>)

  datatype Capture = Capture(direction: Direction, register: u8, bytes: seq<u8>)

  /** The last byte read at each offset modulo 64: the bytes themselves up to a full register file. */
  function Folded(read: seq<u8>): (r: seq<u8>)
    ensures |r| == if |read| <= REGISTER_COUNT then |read| else REGISTER_COUNT
  {
    if read == [] then [] else
    var n := |read| - 1;
    var f := Folded(read[..n]);
    if n < REGISTER_COUNT then f + [read[n]] else f[n % REGISTER_COUNT := read[n]]
  }

  lemma {:induction false} FoldedShort(read: seq<u8>)
    requires |read| <= REGISTER_COUNT
    ensures Folded(read) == read
  {
    if read != [] {
      FoldedShort(read[..|read| - 1]);
    }
  }

  function Accepted(written: seq<u8>): seq<u8> {
    if |written| <= REGISTER_COUNT then written else written[..REGISTER_COUNT]
  }

  /** What the mailbox may hold of a finished transaction. */
  function WriteCapture(t: Txn): Capture {
    Capture(Write, (t.start + |t.read|) % 0x100, Accepted(t.written))
  }

  function ReadCapture(t: Txn): Capture {
    Capture(ReadBack, t.start, Folded(t.read))
  }

  /** Observed along a run: the transaction in progress, the one in the mailbox and the one the worker
      took over; the bank contents when the pointer byte arrived (`frozen`), whether a bank flip and a
      publish after that flip have happened since; and the image published last. */
  datatype Seen = Seen(
    current: Txn, posted: Txn, taken: Txn,
    frozen: Block, flipped: bool, publishedAgain: bool, published: Block)

  function SeeData(s: Shared, o: Seen, d: Data): Seen
    requires InRange(s)
  {
    match d
    case NoData => o
    case Transmit =>
      if s.transmitPointerValid then o.(current := o.current.(read := o.current.read + [TransmitValue(s)])) else o
    case FirstByte(b) =>
      o.(current := Txn(b, [], []), frozen := s.Bank(s.activeRegisters), flipped := false, publishedAgain := false)
    case NextByte(b) => o.(current := o.current.(written := o.current.written + [b]))
  }

  predicate Posts(s: Shared) {
    s.pendingCount == 0 && (s.receiveCount != 0 || PostsRead(s))
  }

  function SeeStop(s: Shared, o: Seen): Seen {
    o.(posted := if Posts(s) then o.current else o.posted, current := Txn(s.registerPointer, [], []))
  }

  function See(s: Shared, o: Seen, e: Interrupt): Seen
    requires InRange(s)
  {
    var o' := SeeData(s, o, e.data);
    if e.stop then SeeStop(OnData(s, e.data), o') else o'
  }

  function SeeWork(s: Shared, w: Worker, o: Seen): Seen {
    match w.pc
    case Pend => o.(taken := o.posted)
    case PickBank => o.(publishedAgain := o.publishedAgain || o.flipped)
    case Flip => o.(flipped := true, published := s.Bank(w.target))
    case _ => o
  }

  // ----- the invariant ------------------------------------------------------------------------

  /** The receive and transmit buffers hold the transaction in progress. */
  ghost predicate BusOk(s: Shared, t: Txn) {
    && s.receiveCount == |Accepted(t.written)|
    && s.receiveBuffer[..s.receiveCount] == Accepted(t.written)
    && s.registerPointer == (t.start + |t.read|) % 0x100
    && (!s.transmitPointerValid ==> t.read == [])
    && (s.transmitPointerValid ==>
          && s.transmitStart == t.start
          && s.transmitLength == |Folded(t.read)|
          && s.transmitBuffer[..s.transmitLength] == Folded(t.read))
  }

  /** A full mailbox holds one whole transaction. */
  ghost predicate MailboxOk(s: Shared, t: Txn) {
    s.pendingCount != 0 ==> MailboxHolds(s, t)
  }

  function MailboxCapture(s: Shared): Capture
    requires s.pendingCount <= REGISTER_COUNT
  {
    Capture(s.pendingDirection, s.pendingRegister, s.pendingBuffer[..s.pendingCount])
  }

  ghost predicate MailboxHolds(s: Shared, t: Txn) {
    && s.pendingCount <= REGISTER_COUNT
    && (MailboxCapture(s) == WriteCapture(t) || MailboxCapture(s) == ReadCapture(t))
  }

  /** The worker is between reading the count and clearing it. */
  predicate Taking(pc: Pc) {
    pc.ReadRegister? || pc.ReadDirection? || pc.Copying? || Acting(pc) || pc.Clear?
  }

  predicate HasRegister(pc: Pc) { !pc.Pend? && !pc.ReadRegister? }
  predicate HasDirection(pc: Pc) { HasRegister(pc) && !pc.ReadDirection? }
  predicate HasBytes(pc: Pc) { HasDirection(pc) && !pc.Copying? }

  /** What the worker has copied so far is the capture it took over. */
  ghost predicate CopyOk(w: Worker, c: Capture) {
    && WorkerInRange(w)
    && |c.bytes| == w.dumpCount
    && (HasRegister(w.pc) ==> w.dumpRegister == c.register)
    && (HasDirection(w.pc) ==> w.dumpDirection == c.direction)
    && (w.pc.Copying? ==> w.dumpBuffer[..w.pc.index] == c.bytes[..w.pc.index])
    && (HasBytes(w.pc) ==> w.dumpBuffer[..w.dumpCount] == c.bytes)
  }

  ghost predicate TakenOk(s: Shared, w: Worker, o: Seen) {
    w.dumpCount != 0 && !w.pc.Pend? ==>
      if Taking(w.pc) then
        && o.taken == o.posted && 0 != s.pendingCount == w.dumpCount <= REGISTER_COUNT
        && CopyOk(w, MailboxCapture(s))
      else CopyOk(w, WriteCapture(o.taken)) || CopyOk(w, ReadCapture(o.taken))
  }

  ghost predicate IsImage(board: Board, b: Block) {
    exists t: u32, e: u32, k: u32 :: b == Image(board.version, board.role, t, e, k)
  }

  /** The active bank is a complete image; the worker builds the next one in the other bank. */
  ghost predicate BanksOk(board: Board, s: Shared, w: Worker, o: Seen) {
    && s.Bank(s.activeRegisters) == o.published
    && IsImage(board, o.published)
    && (Publishing(w.pc) ==> w.target == 1 - s.activeRegisters)
    && BuiltOk(board, s, w)
  }

  ghost predicate BuiltOk(board: Board, s: Shared, w: Worker) {
    var b, i := s.Bank(w.target), Identity(board.version, board.role);
    && (w.pc.FillTransactions? ==> b == i)
    && (w.pc.FillErrors? ==> b == Overlay(i, 10, Le32(w.transactions)))
    && (w.pc.FillTicks? ==> b == Overlay(Overlay(i, 10, Le32(w.transactions)), 14, Le32(w.errors)))
    && (w.pc.Flip? ==> IsImage(board, b))
  }

  /** Unless a publish began after the first flip since the pointer byte, the snapshot bank is
      untouched, and so every register byte read so far comes from the frozen image. */
  ghost predicate SnapshotOk(s: Shared, w: Worker, o: Seen) {
    s.transmitPointerValid && !o.publishedAgain ==>
      && s.Bank(s.transmitSnapshot) == o.frozen
      && (s.transmitRegisters <= 1 ==> s.transmitRegisters == s.transmitSnapshot)
      && (o.flipped <==> s.transmitSnapshot != s.activeRegisters)
      && (Publishing(w.pc) ==> !o.flipped)
      && (!s.transmitLoopback ==> FromImage(o.frozen, o.current.start, o.current.read))
  }

  ghost predicate FromImage(image: Block, start: u8, read: seq<u8>) {
    forall i | 0 <= i < |read| :: read[i] == image[(start + i) % REGISTER_COUNT]
  }

  ghost predicate SlaveInv(board: Board, s: Shared, w: Worker, o: Seen) {
    && InRange(s) && WorkerInRange(w)
    && BusOk(s, o.current)
    && MailboxOk(s, o.posted)
    && TakenOk(s, w, o)
    && BanksOk(board, s, w, o)
    && SnapshotOk(s, w, o)
  }

  // ----- the interrupt handler keeps it -------------------------------------------------------

  lemma PointerArithmetic(start: u8, n: nat)
    ensures ((start + n) % 0x100 - start) % REGISTER_COUNT == n % REGISTER_COUNT
    ensures (start + n) % 0x100 % REGISTER_COUNT == (start + n) % REGISTER_COUNT
    ensures ((start + n) % 0x100 + 1) % 0x100 == (start + n + 1) % 0x100
  {
    var q := (start + n) / 0x100;
    assert (start + n) % 0x100 == start + n - 0x100 * q;
    assert (start + n) % 0x100 - start == n - 64 * (4 * q);
    ModShift(n, 4 * q);
    ModShift(start + n, 4 * q);
  }

  lemma ModShift(n: int, k: int)
    ensures (n - 64 * k) % 64 == n % 64
  {
  }

  lemma FoldedSnoc(read: seq<u8>, v: u8)
    ensures var n := |read|;
      Folded(read + [v]) ==
        if n < REGISTER_COUNT then Folded(read) + [v] else Folded(read)[n % REGISTER_COUNT := v]
  {
    assert (read + [v])[..|read|] == read;
  }

  lemma TransmitBus(s: Shared, t: Txn)
    requires InRange(s) && BusOk(s, t) && s.transmitPointerValid
    ensures BusOk(OnTransmit(s), t.(read := t.read + [TransmitValue(s)]))
  {
    hide Folded, TransmitValue;
    var n, v := |t.read|, TransmitValue(s);
    PointerArithmetic(t.start, n);
    FoldedSnoc(t.read, v);
  }

  lemma TransmitSnapshot(s: Shared, w: Worker, o: Seen)
    requires InRange(s) && SnapshotOk(s, w, o) && BusOk(s, o.current) && s.transmitPointerValid
    ensures SnapshotOk(OnTransmit(s), w, SeeData(s, o, Transmit))
  {
    hide Folded;
    PointerArithmetic(o.current.start, |o.current.read|);
  }

  lemma NextByteBus(s: Shared, t: Txn, b: u8)
    requires InRange(s) && BusOk(s, t)
    ensures BusOk(OnNextByte(s, b), t.(written := t.written + [b]))
  {
    hide Folded;
    var written := t.written + [b];
    if |t.written| < REGISTER_COUNT {
      assert s.receiveBuffer[s.receiveCount := b][..s.receiveCount + 1] == s.receiveBuffer[..s.receiveCount] + [b];
    } else {
      assert written[..REGISTER_COUNT] == t.written[..REGISTER_COUNT];
    }
  }

  lemma FirstByteBus(s: Shared, b: u8)
    requires InRange(s)
    ensures BusOk(OnFirstByte(s, b), Txn(b, [], []))
  {
  }

  /** Parts of the state a data interrupt does not touch. */
  ghost predicate SameMailbox(s: Shared, t: Shared) {
    && t.pendingCount == s.pendingCount && t.pendingRegister == s.pendingRegister
    && t.pendingBuffer == s.pendingBuffer && t.pendingDirection == s.pendingDirection
  }

  ghost predicate SameBanks(s: Shared, t: Shared) {
    t.registers0 == s.registers0 && t.registers1 == s.registers1 && t.activeRegisters == s.activeRegisters
  }

  lemma DataBus(s: Shared, o: Seen, d: Data)
    requires InRange(s) && BusOk(s, o.current)
    ensures BusOk(OnData(s, d), SeeData(s, o, d).current)
  {
    hide BusOk;
    match d {
      case NoData =>
      case Transmit =>
        if s.transmitPointerValid {
          TransmitBus(s, o.current);
        }
      case FirstByte(b) => FirstByteBus(s, b);
      case NextByte(b) => NextByteBus(s, o.current, b);
    }
  }

  lemma DataSnapshot(s: Shared, w: Worker, o: Seen, d: Data)
    requires InRange(s) && SnapshotOk(s, w, o) && BusOk(s, o.current)
    ensures SnapshotOk(OnData(s, d), w, SeeData(s, o, d))
  {
    hide Folded, BusOk, TransmitValue;
    match d {
      case NoData =>
      case Transmit =>
        if s.transmitPointerValid {
          TransmitSnapshot(s, w, o);
        }
      case FirstByte(b) =>
      case NextByte(b) =>
    }
  }

  lemma DataLeaves(s: Shared, o: Seen, d: Data)
    requires InRange(s)
    ensures SameMailbox(s, OnData(s, d)) && SameBanks(s, OnData(s, d))
    ensures var o' := SeeData(s, o, d);
      o'.posted == o.posted && o'.taken == o.taken && o'.published == o.published
  {
  }

  /** What concerns only the mailbox and the banks carries over to any state that has the same. */
  lemma SameElsewhere(board: Board, s: Shared, t: Shared, w: Worker, o: Seen, o': Seen)
    requires InRange(s) && InRange(t) && SameMailbox(s, t) && SameBanks(s, t)
    requires o'.posted == o.posted && o'.taken == o.taken && o'.published == o.published
    requires MailboxOk(s, o.posted) && TakenOk(s, w, o) && BanksOk(board, s, w, o)
    ensures MailboxOk(t, o'.posted) && TakenOk(t, w, o') && BanksOk(board, t, w, o')
  {
    hide CopyOk, IsImage, Image, Identity, Overlay, WriteCapture, ReadCapture, MailboxCapture, Le32;
    SameCapture(s, t);
  }

  lemma DataKeeps(board: Board, s: Shared, w: Worker, o: Seen, d: Data)
    requires SlaveInv(board, s, w, o)
    ensures SlaveInv(board, OnData(s, d), w, SeeData(s, o, d))
  {
    hide BusOk, MailboxOk, TakenOk, BanksOk, SnapshotOk, OnData, SeeData, SameMailbox, SameBanks;
    DataBus(s, o, d);
    DataSnapshot(s, w, o, d);
    DataLeaves(s, o, d);
    SameElsewhere(board, s, OnData(s, d), w, o, SeeData(s, o, d));
  }

  lemma PostedWrite(s: Shared, t: Txn)
    requires InRange(s) && BusOk(s, t) && s.receiveCount != 0
    ensures MailboxCapture(PostWrite(s)) == WriteCapture(t)
  {
    hide Folded;
    assert Overlay(s.pendingBuffer, 0, s.receiveBuffer[..s.receiveCount])[..s.receiveCount]
        == s.receiveBuffer[..s.receiveCount];
  }

  lemma PostedRead(s: Shared, t: Txn)
    requires InRange(s) && BusOk(s, t) && PostsRead(s)
    ensures MailboxCapture(PostRead(s)) == ReadCapture(t)
  {
    hide Folded;
    assert Overlay(s.pendingBuffer, 0, s.transmitBuffer[..s.transmitLength])[..s.transmitLength]
        == s.transmitBuffer[..s.transmitLength];
  }

  lemma StopBus(s: Shared)
    requires InRange(s)
    ensures BusOk(OnStop(s), Txn(s.registerPointer, [], [])) && SameBanks(s, OnStop(s))
    ensures !OnStop(s).transmitPointerValid
  {
    hide Overlay;
  }

  lemma StopMailbox(s: Shared, o: Seen)
    requires InRange(s) && BusOk(s, o.current) && MailboxOk(s, o.posted)
    ensures MailboxOk(OnStop(s), SeeStop(s, o).posted)
    ensures s.pendingCount != 0 ==> SameMailbox(s, OnStop(s)) && SeeStop(s, o).posted == o.posted
    ensures Posts(s) ==>
      && OnStop(s).pendingCount != 0 && SeeStop(s, o).posted == o.current
      && MailboxCapture(OnStop(s)) == if s.receiveCount != 0 then WriteCapture(o.current) else ReadCapture(o.current)
  {
    hide BusOk, Overlay, WriteCapture, ReadCapture, MailboxCapture;
    var t := OnStop(s);
    if s.pendingCount != 0 {
      SameCapture(s, t);
    } else if s.receiveCount != 0 {
      PostedWrite(s, o.current);
      SameCapture(PostWrite(s), t);
    } else if PostsRead(s) {
      PostedRead(s, o.current);
      SameCapture(PostRead(s), t);
    }
  }

  lemma StopTaken(s: Shared, t: Shared, w: Worker, o: Seen, o': Seen)
    requires InRange(s) && InRange(t) && TakenOk(s, w, o) && o'.taken == o.taken
    requires s.pendingCount != 0 ==> SameMailbox(s, t) && o'.posted == o.posted
    ensures TakenOk(t, w, o')
  {
    hide CopyOk, WriteCapture, ReadCapture, MailboxCapture;
    if s.pendingCount != 0 {
      SameCapture(s, t);
    }
  }

  lemma StopKeeps(board: Board, s: Shared, w: Worker, o: Seen)
    requires SlaveInv(board, s, w, o)
    ensures SlaveInv(board, OnStop(s), w, SeeStop(s, o))
  {
    hide BusOk, MailboxOk, TakenOk, OnStop, IsImage, Identity, Overlay, Le32;
    StopBus(s);
    StopMailbox(s, o);
    StopTaken(s, OnStop(s), w, o, SeeStop(s, o));
  }

  lemma SameCapture(s: Shared, t: Shared)
    requires SameMailbox(s, t) && s.pendingCount <= REGISTER_COUNT
    ensures MailboxCapture(t) == MailboxCapture(s)
  {
  }

  lemma InterruptKeeps(board: Board, s: Shared, w: Worker, o: Seen, e: Interrupt)
    requires SlaveInv(board, s, w, o)
    ensures SlaveInv(board, Handle(s, e), w, See(s, o, e))
  {
    hide BusOk, MailboxOk, TakenOk, BanksOk, SnapshotOk;
    DataKeeps(board, s, w, o, e.data);
    if e.stop {
      StopKeeps(board, OnData(s, e.data), w, SeeData(s, o, e.data));
    }
  }

  // ----- the worker keeps it ------------------------------------------------------------------

  lemma CopyStep(w: Worker, c: Capture, v: u8)
    requires CopyOk(w, c) && w.pc.Copying? && c.bytes[w.pc.index] == v
    ensures CopyOk(w.(dumpBuffer := w.dumpBuffer[w.pc.index := v], pc := AfterCopy(w.dumpCount, w.pc.index + 1)), c)
  {
    var i := w.pc.index;
    assert w.dumpBuffer[i := v][..i + 1] == w.dumpBuffer[..i] + [v];
    assert c.bytes[..i + 1] == c.bytes[..i] + [v];
    if i + 1 == w.dumpCount {
      assert c.bytes[..i + 1] == c.bytes;
    }
  }

  lemma CopyStart(w: Worker, c: Capture)
    requires CopyOk(w, c) && w.pc.ReadDirection?
    ensures CopyOk(w.(dumpDirection := c.direction, pc := AfterCopy(w.dumpCount, 0)), c)
  {
    assert w.dumpBuffer[..0] == c.bytes[..0];
  }

  ghost predicate SameBus(s: Shared, t: Shared) {
    && t.receiveCount == s.receiveCount && t.receiveBuffer == s.receiveBuffer
    && t.registerPointer == s.registerPointer && t.transmitPointerValid == s.transmitPointerValid
    && t.transmitStart == s.transmitStart && t.transmitLength == s.transmitLength
    && t.transmitBuffer == s.transmitBuffer && t.transmitSnapshot == s.transmitSnapshot
    && t.transmitLoopback == s.transmitLoopback
  }

  lemma BusUntouched(s: Shared, t: Shared, x: Txn)
    requires BusOk(s, x) && SameBus(s, t)
    ensures BusOk(t, x)
  {
    hide Folded;
  }

  /** The worker touches nothing the bus side depends on. */
  lemma WorkBus(board: Board, ticks: u32, s: Shared, w: Worker, o: Seen)
    requires InRange(s) && WorkerInRange(w) && BusOk(s, o.current)
    ensures BusOk(Work(board, ticks, s, w).0, o.current) && SeeWork(s, w, o).current == o.current
  {
    hide BusOk, Work, NextBank, Effect, SameBus;
    WorkEffect(board, ticks, s, w);
    EffectBus(s, w, Work(board, ticks, s, w).0, NextBank(board, ticks, s, w));
    BusUntouched(s, Work(board, ticks, s, w).0, o.current);
  }

  /** The worker writes one bank, the active index, the mailbox count, the dropped bank or the
      counters: one of them per statement. */
  ghost predicate Effect(s: Shared, w: Worker, t: Shared, bank: Block) {
    if Acting(w.pc) then t == s.(transactionCount := t.transactionCount, errorCount := t.errorCount) else
    match w.pc
    case Clear => t == s.(pendingCount := 0)
    case DropBank => t == s.(transmitRegisters := NO_BANK)
    case Flip => t == s.(activeRegisters := w.target)
    case _ => if Publishing(w.pc) then t == s.WithBank(w.target, bank) else t == s
  }

  lemma EffectBus(s: Shared, w: Worker, t: Shared, bank: Block)
    requires Effect(s, w, t, bank)
    ensures SameBus(s, t)
    ensures SameMailbox(s, t) || (w.pc.Clear? && t.pendingCount == 0)
    ensures !Publishing(w.pc) ==> SameBanks(s, t)
    ensures t.transmitRegisters == s.transmitRegisters || t.transmitRegisters == NO_BANK
  {
    hide Effect, SameBus, SameMailbox, SameBanks;
    EffectLeavesBus(s, w, t, bank);
    EffectLeavesRest(s, w, t, bank);
  }

  lemma EffectLeavesBus(s: Shared, w: Worker, t: Shared, bank: Block)
    requires Effect(s, w, t, bank)
    ensures SameBus(s, t)
  {
  }

  lemma EffectLeavesRest(s: Shared, w: Worker, t: Shared, bank: Block)
    requires Effect(s, w, t, bank)
    ensures SameMailbox(s, t) || (w.pc.Clear? && t.pendingCount == 0)
    ensures !Publishing(w.pc) ==> SameBanks(s, t)
    ensures t.transmitRegisters == s.transmitRegisters || t.transmitRegisters == NO_BANK
  {
  }

  function NextBank(board: Board, ticks: u32, s: Shared, w: Worker): Block {
    if Publishing(w.pc) then Filled(board, ticks, s, w) else Zero()
  }

  lemma WorkEffect(board: Board, ticks: u32, s: Shared, w: Worker)
    requires InRange(s) && WorkerInRange(w)
    ensures Effect(s, w, Work(board, ticks, s, w).0, NextBank(board, ticks, s, w))
  {
    hide Filled, Act;
  }

  lemma WorkMailbox(board: Board, ticks: u32, s: Shared, w: Worker)
    requires InRange(s) && WorkerInRange(w)
    ensures var t := Work(board, ticks, s, w).0; SameMailbox(s, t) || (w.pc.Clear? && t.pendingCount == 0)
  {
    hide Work, NextBank, Effect;
    WorkEffect(board, ticks, s, w);
    EffectBus(s, w, Work(board, ticks, s, w).0, NextBank(board, ticks, s, w));
  }

  /** Statements from reading the mailbox to clearing it. */
  lemma TakeStep(board: Board, ticks: u32, s: Shared, w: Worker, o: Seen)
    requires InRange(s) && WorkerInRange(w) && Taking(w.pc) && w.dumpCount != 0
    requires TakenOk(s, w, o) && MailboxOk(s, o.posted)
    ensures var r := Work(board, ticks, s, w); TakenOk(r.0, r.1, SeeWork(s, w, o))
  {
    hide Overlay, Identity, Le32, WriteCapture, ReadCapture, Folded, Act, AfterCheck, Publish;
    var c := MailboxCapture(s);
    if w.pc.ReadDirection? {
      CopyStart(w, c);
    } else if w.pc.Copying? {
      CopyStep(w, c, s.pendingBuffer[w.pc.index]);
    }
  }

  lemma WorkTaken(board: Board, ticks: u32, s: Shared, w: Worker, o: Seen)
    requires InRange(s) && WorkerInRange(w) && TakenOk(s, w, o) && MailboxOk(s, o.posted)
    ensures var r := Work(board, ticks, s, w); TakenOk(r.0, r.1, SeeWork(s, w, o))
  {
    hide CopyOk, Overlay, Identity, Le32, WriteCapture, ReadCapture, Act, AfterCheck;
    var r := Work(board, ticks, s, w);
    if w.pc.Pend? {
      Begins(s, w);
    } else if w.dumpCount != 0 {
      if Taking(w.pc) {
        TakeStep(board, ticks, s, w, o);
      } else {
        CopyLater(w, r.1, WriteCapture(o.taken));
        CopyLater(w, r.1, ReadCapture(o.taken));
      }
    }
  }

  lemma Begins(s: Shared, w: Worker)
    requires InRange(s) && WorkerInRange(w) && w.pc.Pend?
    ensures CopyOk(w.(dumpCount := s.pendingCount, pc := ReadRegister), MailboxCapture(s))
  {
  }

  lemma CopyLater(w: Worker, v: Worker, c: Capture)
    requires HasBytes(w.pc) && (HasBytes(v.pc) || v.pc.Pend?)
    requires WorkerInRange(v)
    requires v.dumpCount == w.dumpCount && v.dumpRegister == w.dumpRegister
    requires v.dumpDirection == w.dumpDirection && v.dumpBuffer == w.dumpBuffer
    ensures CopyOk(w, c) && !v.pc.Pend? ==> CopyOk(v, c)
  {
  }

  lemma TicksImage(board: Board, s: Shared, w: Worker, ticks: u32)
    requires BuiltOk(board, s, w) && w.pc.FillTicks?
    ensures IsImage(board, Overlay(s.Bank(w.target), 18, Le32(ticks)))
  {
    hide Overlay, Le32, Identity;
    assert Overlay(s.Bank(w.target), 18, Le32(ticks))
        == Image(board.version, board.role, w.transactions, w.errors, ticks);
  }

  /** The statements of publishRegisters build an image and then make it the active one. */
  lemma PublishBanks(board: Board, ticks: u32, s: Shared, w: Worker, o: Seen)
    requires InRange(s) && WorkerInRange(w) && BanksOk(board, s, w, o) && Publishing(w.pc)
    ensures var r := Publish(board, ticks, s, w); BanksOk(board, r.0, r.1, SeeWork(s, w, o))
  {
    hide IsImage, Overlay, Identity, Le32;
    if w.pc.FillTicks? {
      TicksImage(board, s, w, ticks);
    }
  }

  lemma OtherBanks(board: Board, s: Shared, w: Worker, o: Seen, t: Shared, v: Worker, o': Seen)
    requires BanksOk(board, s, w, o) && SameBanks(s, t) && o'.published == o.published
    requires Publishing(v.pc) ==> v.pc.FillIdentity? && v.target == 1 - s.activeRegisters
    ensures BanksOk(board, t, v, o')
  {
    hide IsImage, Overlay, Identity, Le32;
  }

  lemma WorkBanks(board: Board, ticks: u32, s: Shared, w: Worker, o: Seen)
    requires InRange(s) && WorkerInRange(w) && BanksOk(board, s, w, o)
    ensures var r := Work(board, ticks, s, w); BanksOk(board, r.0, r.1, SeeWork(s, w, o))
  {
    hide BanksOk, SeeWork, Effect, NextBank;
    if Publishing(w.pc) {
      hide Publish;
      PublishBanks(board, ticks, s, w, o);
    } else {
      hide Work;
      var r := Work(board, ticks, s, w);
      WorkEffect(board, ticks, s, w);
      EffectBus(s, w, r.0, NextBank(board, ticks, s, w));
      OtherWorker(board, ticks, s, w, o);
      OtherBanks(board, s, w, o, r.0, r.1, SeeWork(s, w, o));
    }
  }

  /** The bank under construction is never the frozen one, until a flip has made them trade places. */
  lemma PublishSnapshot(board: Board, ticks: u32, s: Shared, w: Worker, o: Seen)
    requires InRange(s) && WorkerInRange(w) && BanksOk(board, s, w, o) && SnapshotOk(s, w, o) && Publishing(w.pc)
    ensures var r := Publish(board, ticks, s, w); SnapshotOk(r.0, r.1, SeeWork(s, w, o))
  {
    hide IsImage, Filled, BuiltOk, FromImage;
  }

  /** All other statements leave the banks alone, and a publish that begins after a flip is noted. */
  lemma OtherSnapshot(s: Shared, w: Worker, o: Seen, t: Shared, v: Worker, o': Seen)
    requires InRange(s) && SnapshotOk(s, w, o)
    requires SameBus(s, t) && SameBanks(s, t)
    requires t.transmitRegisters == s.transmitRegisters || t.transmitRegisters == NO_BANK
    requires o' == o.(taken := o'.taken, publishedAgain := o'.publishedAgain)
    requires o.publishedAgain ==> o'.publishedAgain
    requires Publishing(v.pc) ==> !o.flipped || o'.publishedAgain
    ensures SnapshotOk(t, v, o')
  {
    hide FromImage;
  }

  lemma OtherWorker(board: Board, ticks: u32, s: Shared, w: Worker, o: Seen)
    requires InRange(s) && WorkerInRange(w) && !Publishing(w.pc)
    ensures var v, o' := Work(board, ticks, s, w).1, SeeWork(s, w, o);
      && o' == o.(taken := o'.taken, publishedAgain := o'.publishedAgain)
      && (o.publishedAgain ==> o'.publishedAgain)
      && (Publishing(v.pc) ==> w.pc.PickBank? && v.target == 1 - s.activeRegisters && (!o.flipped || o'.publishedAgain))
      && (Publishing(v.pc) ==> v.pc.FillIdentity?)
  {
  }

  lemma WorkSnapshot(board: Board, ticks: u32, s: Shared, w: Worker, o: Seen)
    requires InRange(s) && WorkerInRange(w) && BanksOk(board, s, w, o) && SnapshotOk(s, w, o)
    ensures var r := Work(board, ticks, s, w); SnapshotOk(r.0, r.1, SeeWork(s, w, o))
  {
    hide BanksOk, SnapshotOk, SeeWork, Effect, NextBank;
    if Publishing(w.pc) {
      hide Publish;
      PublishSnapshot(board, ticks, s, w, o);
    } else {
      hide Work;
      var r := Work(board, ticks, s, w);
      WorkEffect(board, ticks, s, w);
      EffectBus(s, w, r.0, NextBank(board, ticks, s, w));
      OtherWorker(board, ticks, s, w, o);
      OtherSnapshot(s, w, o, r.0, r.1, SeeWork(s, w, o));
    }
  }

  lemma WorkKeeps(board: Board, ticks: u32, s: Shared, w: Worker, o: Seen)
    requires SlaveInv(board, s, w, o)
    ensures var r := Work(board, ticks, s, w); SlaveInv(board, r.0, r.1, SeeWork(s, w, o))
  {
    hide BusOk, TakenOk, BanksOk, SnapshotOk, Work, WriteCapture, ReadCapture, MailboxCapture;
    WorkBus(board, ticks, s, w, o);
    WorkMailbox(board, ticks, s, w);
    WorkTaken(board, ticks, s, w, o);
    WorkBanks(board, ticks, s, w, o);
    WorkSnapshot(board, ticks, s, w, o);
    var t := Work(board, ticks, s, w).0;
    if SameMailbox(s, t) {
      SameCapture(s, t);
    }
  }

  // ----- runs ---------------------------------------------------------------------------------

  /** An interrupt, the next statement of the worker, or the CLI switching the dump. */
  datatype Event = OnInterrupt(e: Interrupt) | OnWork(ticks: u32) | OnDump(on: bool)

  datatype State = State(s: Shared, w: Worker, o: Seen)

  ghost predicate StateInv(board: Board, x: State) { SlaveInv(board, x.s, x.w, x.o) }

  function Step(board: Board, x: State, e: Event): State
    requires InRange(x.s) && WorkerInRange(x.w)
  {
    match e
    case OnInterrupt(i) => State(Handle(x.s, i), x.w, See(x.s, x.o, i))
    case OnWork(ticks) =>
      var r := Work(board, ticks, x.s, x.w);
      State(r.0, r.1, SeeWork(x.s, x.w, x.o))
    case OnDump(on) => x.(s := x.s.(dumpEnabled := on))
  }

  lemma StepKeeps(board: Board, x: State, e: Event)
    requires StateInv(board, x)
    ensures StateInv(board, Step(board, x, e))
  {
    hide SlaveInv;
    match e {
      case OnInterrupt(i) => InRangeOf(board, x); InterruptKeeps(board, x.s, x.w, x.o, i);
      case OnWork(ticks) => InRangeOf(board, x); WorkKeeps(board, ticks, x.s, x.w, x.o);
      case OnDump(on) => DumpKeeps(board, x, on);
    }
  }

  lemma InRangeOf(board: Board, x: State)
    requires StateInv(board, x)
    ensures InRange(x.s) && WorkerInRange(x.w)
  {
    hide BusOk, MailboxOk, TakenOk, BanksOk, SnapshotOk;
  }

  lemma DumpKeeps(board: Board, x: State, on: bool)
    requires StateInv(board, x)
    ensures StateInv(board, x.(s := x.s.(dumpEnabled := on)))
  {
    hide CopyOk, IsImage, Identity, Overlay, WriteCapture, ReadCapture, Le32, FromImage, Folded;
    var t := x.s.(dumpEnabled := on);
    SameCapture(x.s, t);
  }

  ghost predicate StepAt(board: Board, states: seq<State>, events: seq<Event>, i: nat)
    requires |states| == |events| + 1 && i < |events|
  {
    InRange(states[i].s) && WorkerInRange(states[i].w) && states[i + 1] == Step(board, states[i], events[i])
  }

  ghost predicate SlaveRun(board: Board, states: seq<State>, events: seq<Event>) {
    && |states| == |events| + 1
    && forall i | 0 <= i < |events| :: StepAt(board, states, events, i)
  }

  /** After i2c_slave_start: one image published, nothing received, the worker about to wait. */
  ghost predicate SlaveStarts(board: Board, x: State) {
    && InRange(x.s) && WorkerInRange(x.w)
    && x.w.pc == Pend && x.s.pendingCount == 0 && x.s.receiveCount == 0 && !x.s.transmitPointerValid
    && IsImage(board, x.s.Bank(x.s.activeRegisters))
    && x.o.published == x.s.Bank(x.s.activeRegisters)
    && x.o.current == Txn(x.s.registerPointer, [], [])
  }

  lemma {:induction false} SlaveRunsKeep(board: Board, states: seq<State>, events: seq<Event>, k: nat)
    requires SlaveRun(board, states, events) && SlaveStarts(board, states[0]) && k <= |events|
    ensures StateInv(board, states[k])
    decreases k
  {
    hide Step, IsImage, Identity, Overlay, Le32;
    if k > 0 {
      hide StateInv;
      SlaveRunsKeep(board, states, events, k - 1);
      assert StepAt(board, states, events, k - 1);
      StepKeeps(board, states[k - 1], events[k - 1]);
    }
  }

  /** Whenever the worker gets to print a capture it is one whole transaction of the master: its
      register and its bytes, neither mixed with another one nor torn. */
  lemma DumpsAreWhole(board: Board, states: seq<State>, events: seq<Event>, k: nat)
    requires SlaveRun(board, states, events) && SlaveStarts(board, states[0]) && k <= |events|
    requires states[k].w.pc == Dump && states[k].w.dumpCount != 0
    ensures var w, t := states[k].w, states[k].o.taken;
      && w.dumpCount <= REGISTER_COUNT
      && var c := Capture(w.dumpDirection, w.dumpRegister, w.dumpBuffer[..w.dumpCount]);
         c == WriteCapture(t) || c == ReadCapture(t)
  {
    hide BusOk, BanksOk, SnapshotOk, MailboxOk, WriteCapture, ReadCapture;
    SlaveRunsKeep(board, states, events, k);
  }

  /** A plain write or read of at most 64 bytes is captured byte for byte with its own register. */
  lemma CapturesAreExact(t: Txn)
    ensures t.read == [] && |t.written| <= REGISTER_COUNT ==> WriteCapture(t) == Capture(Write, t.start, t.written)
    ensures |t.read| <= REGISTER_COUNT ==> ReadCapture(t) == Capture(ReadBack, t.start, t.read)
  {
    hide Folded;
    if |t.read| <= REGISTER_COUNT {
      FoldedShort(t.read);
    }
  }

  /** A register read sees one published image, however often the bank is dropped meanwhile, as long
      as no publish has begun after the first flip since its pointer byte. */
  lemma ReadsSeeOneImage(board: Board, states: seq<State>, events: seq<Event>, k: nat)
    requires SlaveRun(board, states, events) && SlaveStarts(board, states[0]) && k <= |events|
    requires states[k].s.transmitPointerValid && !states[k].s.transmitLoopback && !states[k].o.publishedAgain
    ensures var o := states[k].o; FromImage(o.frozen, o.current.start, o.current.read)
  {
    hide BusOk, BanksOk, TakenOk, MailboxOk;
    SlaveRunsKeep(board, states, events, k);
  }

  /** And the frozen image is a complete one: the handler freezes the active bank, which always is. */
  lemma FrozenIsPublished(board: Board, x: State, b: u8)
    requires StateInv(board, x)
    ensures IsImage(board, Step(board, x, OnInterrupt(Interrupt(FirstByte(b), false))).o.frozen)
  {
    hide BusOk, SnapshotOk, TakenOk, MailboxOk, IsImage;
  }
}
