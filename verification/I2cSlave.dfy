/** The I2C slave: an interrupt handler that runs to completion, and a worker thread it can preempt
    between any two statements.  They share a one-entry mailbox and a double-buffered register file. */
module I2cSlave {
  import opened Words

  const REGISTER_COUNT := 64
  const COMMAND_REGISTER := 0x40
  const CLEAR_STATS := 1
  const LOOPBACK := 0x80
  const NO_BANK: u8 := 0xFF

  type Block = s: seq<u8> | |s| == REGISTER_COUNT witness seq(REGISTER_COUNT, i => 0)

  datatype Direction = Write | ReadBack

  /** The volatile globals. */
  datatype Shared = Shared(
    registers0: Block, registers1: Block, activeRegisters: u8,
    registerPointer: u8, receiveCount: u8, receiveBuffer: Block,
    pendingRegister: u8, pendingCount: u8, pendingBuffer: Block, pendingDirection: Direction,
    transmitRegisters: u8, transmitStart: u8, transmitSnapshot: u8, transmitPointerValid: bool,
    transmitLoopback: bool, transmitLength: u8, transmitBuffer: Block, loopbackBuffer: Block,
    transactionCount: u32, errorCount: u32, dumpEnabled: bool)
  {
    function Bank(i: u8): Block { if i == 0 then registers0 else registers1 }

    function WithBank(i: u8, b: Block): Shared {
      if i == 0 then this.(registers0 := b) else this.(registers1 := b)
    }
  }

  /** What the bus did: a data interrupt, a stop condition, or both. */
  datatype Data = NoData | Transmit | FirstByte(value: u8) | NextByte(value: u8)
  datatype Interrupt = Interrupt(data: Data, stop: bool)

  predicate InLoopback(r: u8) { LOOPBACK <= r < LOOPBACK + REGISTER_COUNT }

  predicate IsLoopbackWrite(start: u8, length: u8) {
    InLoopback(start) && length <= REGISTER_COUNT - (start - LOOPBACK)
  }

  function Overlay(buffer: Block, at: nat, bytes: seq<u8>): Block
    requires at + |bytes| <= REGISTER_COUNT
  {
    buffer[..at] + bytes + buffer[at + |bytes|..]
  }

  /** Counters and indices stay in range: what makes every buffer access of the handler valid. */
  predicate InRange(s: Shared) {
    && s.activeRegisters <= 1 && s.transmitSnapshot <= 1
    && s.receiveCount <= REGISTER_COUNT && s.pendingCount <= REGISTER_COUNT
    && s.transmitLength <= REGISTER_COUNT
  }

  // ----- the interrupt handler ----------------------------------------------------------------

  /** The bank a transmit request reads: the snapshot again whenever the worker has dropped it. */
  function TransmitBank(s: Shared): u8 {
    if s.transmitRegisters > 1 then s.transmitSnapshot else s.transmitRegisters
  }

  function TransmitValue(s: Shared): u8
    requires InRange(s)
  {
    if s.transmitLoopback then
      if InLoopback(s.registerPointer) then s.loopbackBuffer[s.registerPointer - LOOPBACK] else 0
    else s.Bank(TransmitBank(s))[s.registerPointer % REGISTER_COUNT]
  }

  function OnTransmit(s: Shared): (r: Shared)
    requires InRange(s)
    ensures InRange(r)
  {
    if !s.transmitPointerValid then s else
    var offset := (s.registerPointer - s.transmitStart) % REGISTER_COUNT;
    s.(transmitRegisters := if s.transmitLoopback then s.transmitRegisters else TransmitBank(s),
       registerPointer := (s.registerPointer + 1) % 0x100,
       transmitBuffer := s.transmitBuffer[offset := TransmitValue(s)],
       transmitLength := if s.transmitLength <= offset then offset + 1 else s.transmitLength)
  }

  function OnFirstByte(s: Shared, b: u8): (r: Shared)
    requires InRange(s)
    ensures InRange(r)
  {
    s.(registerPointer := b, receiveCount := 0, transmitRegisters := NO_BANK, transmitStart := b,
       transmitSnapshot := s.activeRegisters, transmitPointerValid := true,
       transmitLoopback := InLoopback(b), transmitLength := 0)
  }

  function OnNextByte(s: Shared, b: u8): (r: Shared)
    requires InRange(s)
    ensures InRange(r)
  {
    if s.receiveCount < REGISTER_COUNT
    then s.(receiveBuffer := s.receiveBuffer[s.receiveCount := b], receiveCount := s.receiveCount + 1)
    else s.(errorCount := Add32(s.errorCount, 1))
  }

  function OnData(s: Shared, d: Data): (r: Shared)
    requires InRange(s)
    ensures InRange(r)
  {
    match d
    case NoData => s
    case Transmit => OnTransmit(s)
    case FirstByte(b) => OnFirstByte(s, b)
    case NextByte(b) => OnNextByte(s, b)
  }

  function EndTransmit(s: Shared): Shared {
    s.(transmitRegisters := NO_BANK, transmitPointerValid := false, transmitLoopback := false, transmitLength := 0)
  }

  /** A stop after received data: echo into the loopback window, and post to the mailbox. */
  function PostWrite(s: Shared): (r: Shared)
    requires InRange(s)
    ensures InRange(r)
  {
    var echoed :=
      if IsLoopbackWrite(s.registerPointer, s.receiveCount)
      then s.(loopbackBuffer := Overlay(s.loopbackBuffer, s.registerPointer - LOOPBACK, s.receiveBuffer[..s.receiveCount]))
      else s;
    echoed.(pendingRegister := s.registerPointer, pendingCount := s.receiveCount, pendingDirection := Write,
            pendingBuffer := Overlay(s.pendingBuffer, 0, s.receiveBuffer[..s.receiveCount]),
            receiveCount := 0, transactionCount := Add32(s.transactionCount, 1))
  }

  function PostRead(s: Shared): (r: Shared)
    requires InRange(s)
    ensures InRange(r)
  {
    s.(pendingRegister := s.transmitStart, pendingCount := s.transmitLength, pendingDirection := ReadBack,
       pendingBuffer := Overlay(s.pendingBuffer, 0, s.transmitBuffer[..s.transmitLength]))
  }

  predicate PostsRead(s: Shared) {
    s.receiveCount == 0 && s.transmitPointerValid && s.transmitLength != 0 && s.dumpEnabled
  }

  function OnStop(s: Shared): (r: Shared)
    requires InRange(s)
    ensures InRange(r)
  {
    EndTransmit(
      if s.receiveCount != 0 then
        if s.pendingCount != 0 then s.(errorCount := Add32(s.errorCount, 1), receiveCount := 0) else PostWrite(s)
      else if PostsRead(s) then
        if s.pendingCount != 0 then s.(errorCount := Add32(s.errorCount, 1)) else PostRead(s)
      else s)
  }

  /** i2cInterruptHandler. */
  function Handle(s: Shared, e: Interrupt): (r: Shared)
    requires InRange(s)
    ensures InRange(r)
  {
    var t := OnData(s, e.data);
    if e.stop then OnStop(t) else t
  }

  // ----- the worker, one statement at a time --------------------------------------------------

  datatype Pc =
    | Pend | ReadRegister | ReadDirection | Copying(index: nat)
    | CheckRegister | CheckCount | CheckByte | CheckFull
    | ClearTransactions | ClearErrors | LoadErrors | StoreErrors | Clear | DropBank
    | PickBank | FillIdentity | FillTransactions | FillErrors | FillTicks | Flip | Dump

  /** Locals of the worker; `loaded` is the error counter between load and store of its increment, and
      `target` and the two counter values belong to publishRegisters. */
  datatype Worker = Worker(
    pc: Pc, dumpCount: u8, dumpRegister: u8, dumpDirection: Direction, dumpBuffer: Block,
    loaded: u32, target: u8, transactions: u32, errors: u32)

  /** Identity bytes, version and role, on cleared registers. */
  function Identity(version: u32, role: u8): Block {
    Overlay(Overlay(Overlay(Zero(), 0, [0x49, 0x32, 0x43, 0x53, 1]), 5, Le32(version)), 9, [role])
  }

  function Zero(): Block { seq(REGISTER_COUNT, i => 0) }

  /** A complete register image. */
  function Image(version: u32, role: u8, transactions: u32, errors: u32, ticks: u32): Block {
    Overlay(Overlay(Overlay(Identity(version, role), 10, Le32(transactions)), 14, Le32(errors)), 18, Le32(ticks))
  }

  /** The worker acts on the capture: it checks for the command, one read of the mailbox at a time, and
      for a write that is neither the command nor a loopback write. */
  predicate Acting(pc: Pc) {
    || pc.CheckRegister? || pc.CheckCount? || pc.CheckByte? || pc.CheckFull?
    || pc.ClearTransactions? || pc.ClearErrors? || pc.LoadErrors? || pc.StoreErrors?
  }

  function AfterCheck(s: Shared, w: Worker): Pc
    requires Acting(w.pc)
  {
    match w.pc
    case CheckRegister =>
      if w.dumpDirection == Write && s.pendingRegister == COMMAND_REGISTER then CheckCount else CheckFull
    case CheckCount => if s.pendingCount == 1 then CheckByte else CheckFull
    case CheckByte => if s.pendingBuffer[0] == CLEAR_STATS then ClearTransactions else CheckFull
    case CheckFull =>
      if w.dumpDirection == Write && s.pendingCount != 0 && !IsLoopbackWrite(w.dumpRegister, w.dumpCount)
      then LoadErrors else Clear
    case ClearTransactions => ClearErrors
    case LoadErrors => StoreErrors
    case _ => Clear
  }

  /** One statement of that; the increment of the shared counter is a load and a store. */
  function Act(s: Shared, w: Worker): (r: (Shared, Worker))
    requires InRange(s) && WorkerInRange(w) && Acting(w.pc)
    ensures InRange(r.0) && WorkerInRange(r.1)
    ensures r.0 == s.(transactionCount := r.0.transactionCount, errorCount := r.0.errorCount)
    ensures r.1 == w.(pc := r.1.pc, loaded := r.1.loaded) && (Acting(r.1.pc) || r.1.pc.Clear?)
  {
    var v := w.(pc := AfterCheck(s, w));
    match w.pc
    case ClearTransactions => (s.(transactionCount := 0), v)
    case ClearErrors => (s.(errorCount := 0), v)
    case LoadErrors => (s, v.(loaded := s.errorCount))
    case StoreErrors => (s.(errorCount := Add32(w.loaded, 1)), v)
    case _ => (s, v)
  }

  datatype Board = Board(version: u32, role: u8)

  predicate WorkerInRange(w: Worker) {
    w.dumpCount <= REGISTER_COUNT && w.target <= 1 && (w.pc.Copying? ==> w.pc.index < w.dumpCount)
  }

  function AfterCopy(count: u8, index: nat): Pc {
    if index < count then Copying(index) else CheckRegister
  }

  predicate Publishing(pc: Pc) {
    pc.FillIdentity? || pc.FillTransactions? || pc.FillErrors? || pc.FillTicks? || pc.Flip?
  }

  /** What publishRegisters writes into its bank next. */
  function Filled(board: Board, ticks: u32, s: Shared, w: Worker): Block
    requires Publishing(w.pc)
  {
    var bank := s.Bank(w.target);
    match w.pc
    case FillIdentity => Identity(board.version, board.role)
    case FillTransactions => Overlay(bank, 10, Le32(s.transactionCount))
    case FillErrors => Overlay(bank, 14, Le32(s.errorCount))
    case FillTicks => Overlay(bank, 18, Le32(ticks))
    case Flip => bank
  }

  /** One statement of publishRegisters. */
  function Publish(board: Board, ticks: u32, s: Shared, w: Worker): (r: (Shared, Worker))
    requires InRange(s) && WorkerInRange(w) && Publishing(w.pc)
    ensures InRange(r.0) && WorkerInRange(r.1)
  {
    var t := s.WithBank(w.target, Filled(board, ticks, s, w));
    match w.pc
    case FillIdentity => (t, w.(pc := FillTransactions))
    case FillTransactions => (t, w.(transactions := s.transactionCount, pc := FillErrors))
    case FillErrors => (t, w.(errors := s.errorCount, pc := FillTicks))
    case FillTicks => (t, w.(pc := Flip))
    case Flip => (s.(activeRegisters := w.target), w.(pc := Dump))
  }

  /** One statement of i2c_slave_thread, or of publishRegisters inside it. */
  function Work(board: Board, ticks: u32, s: Shared, w: Worker): (r: (Shared, Worker))
    requires InRange(s) && WorkerInRange(w)
    ensures InRange(r.0) && WorkerInRange(r.1)
  {
    if Publishing(w.pc) then Publish(board, ticks, s, w)
    else if Acting(w.pc) then Act(s, w) else
    match w.pc
    case Pend => (s, w.(dumpCount := s.pendingCount, pc := ReadRegister))
    case ReadRegister => (s, w.(dumpRegister := s.pendingRegister, pc := ReadDirection))
    case ReadDirection => (s, w.(dumpDirection := s.pendingDirection, pc := AfterCopy(w.dumpCount, 0)))
    case Copying(i) =>
      (s, w.(dumpBuffer := w.dumpBuffer[i := s.pendingBuffer[i]], pc := AfterCopy(w.dumpCount, i + 1)))
    case Clear => (s.(pendingCount := 0), w.(pc := DropBank))
    case DropBank => (s.(transmitRegisters := NO_BANK), w.(pc := PickBank))
    case PickBank => (s, w.(target := 1 - s.activeRegisters, pc := FillIdentity))
    case _ => (s, w.(pc := Pend))
  }
}
