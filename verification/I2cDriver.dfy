/** The interrupt handler as it runs: statement after statement on the global variables. */
module I2cDriver {
  import opened Words
  import opened I2cSlave

  class Driver {
    /** The volatile globals, one record updated in place. */
    var g: Shared

    constructor (g: Shared)
      ensures this.g == g
    {
      this.g := g;
    }

    /** A transmit request: the byte put on the bus, zero for a probe without a pointer. */
    method TransmitRequest() returns (value: u8)
      requires InRange(g)
      modifies this
      ensures g == OnTransmit(old(g))
      ensures value == if old(g).transmitPointerValid then TransmitValue(old(g)) else 0
    {
      if !g.transmitPointerValid {
        return 0;
      }
      var transmitOffset := (g.registerPointer - g.transmitStart) % REGISTER_COUNT;
      if g.transmitLoopback {
        if g.registerPointer >= LOOPBACK && g.registerPointer < LOOPBACK + REGISTER_COUNT {
          value := g.loopbackBuffer[g.registerPointer - LOOPBACK];
        } else {
          value := 0;
        }
      } else {
        if g.transmitRegisters > 1 {
          g := g.(transmitRegisters := g.transmitSnapshot);
        }
        value := g.Bank(g.transmitRegisters)[g.registerPointer % REGISTER_COUNT];
      }
      g := g.(registerPointer := (g.registerPointer + 1) % 0x100);
      g := g.(transmitBuffer := g.transmitBuffer[transmitOffset := value]);
      if g.transmitLength <= transmitOffset {
        g := g.(transmitLength := transmitOffset + 1);
      }
    }

    method ReceiveFirst(b: u8)
      requires InRange(g)
      modifies this
      ensures g == OnFirstByte(old(g), b)
    {
      g := g.(registerPointer := b, receiveCount := 0);
      g := g.(transmitRegisters := NO_BANK, transmitStart := b, transmitSnapshot := g.activeRegisters);
      g := g.(transmitPointerValid := true, transmitLoopback := InLoopback(b), transmitLength := 0);
    }

    method ReceiveNext(b: u8)
      requires InRange(g)
      modifies this
      ensures g == OnNextByte(old(g), b)
    {
      if g.receiveCount < REGISTER_COUNT {
        g := g.(receiveBuffer := g.receiveBuffer[g.receiveCount := b], receiveCount := g.receiveCount + 1);
      } else {
        g := g.(errorCount := Add32(g.errorCount, 1));
      }
    }

    /** The copy loops of the stop handling. */
    static method CopyInto(buffer: Block, at: nat, source: Block, count: nat) returns (r: Block)
      requires at + count <= REGISTER_COUNT
      ensures r == Overlay(buffer, at, source[..count])
    {
      r := buffer;
      for index := 0 to count
        invariant r == Overlay(buffer, at, source[..index])
      {
        assert source[..index + 1] == source[..index] + [source[index]];
        r := r[at + index := source[index]];
      }
    }

    method StopAfterWrite()
      requires InRange(g) && g.receiveCount != 0 && g.pendingCount == 0
      modifies this
      ensures g == PostWrite(old(g))
    {
      hide Overlay;
      if IsLoopbackWrite(g.registerPointer, g.receiveCount) {
        var echoed := CopyInto(g.loopbackBuffer, g.registerPointer - LOOPBACK, g.receiveBuffer, g.receiveCount);
        g := g.(loopbackBuffer := echoed);
      }
      var pending := CopyInto(g.pendingBuffer, 0, g.receiveBuffer, g.receiveCount);
      g := g.(pendingRegister := g.registerPointer, pendingCount := g.receiveCount, pendingDirection := Direction.Write);
      g := g.(pendingBuffer := pending, receiveCount := 0, transactionCount := Add32(g.transactionCount, 1));
    }

    method StopAfterRead()
      requires InRange(g) && g.pendingCount == 0
      modifies this
      ensures g == PostRead(old(g))
    {
      hide Overlay;
      var pending := CopyInto(g.pendingBuffer, 0, g.transmitBuffer, g.transmitLength);
      g := g.(pendingRegister := g.transmitStart, pendingCount := g.transmitLength, pendingDirection := ReadBack);
      g := g.(pendingBuffer := pending);
    }

    method Stop()
      requires InRange(g)
      modifies this
      ensures g == OnStop(old(g))
    {
      hide PostWrite, PostRead;
      if g.receiveCount != 0 {
        if g.pendingCount != 0 {
          g := g.(errorCount := Add32(g.errorCount, 1), receiveCount := 0);
        } else {
          StopAfterWrite();
        }
      } else if g.transmitPointerValid && g.transmitLength != 0 && g.dumpEnabled {
        if g.pendingCount != 0 {
          g := g.(errorCount := Add32(g.errorCount, 1));
        } else {
          StopAfterRead();
        }
      }
      g := g.(transmitRegisters := NO_BANK, transmitPointerValid := false);
      g := g.(transmitLoopback := false, transmitLength := 0);
    }

    /** i2cInterruptHandler: one interrupt changes the globals as specified, and no index leaves its
        buffer. */
    method InterruptHandler(e: Interrupt) returns (value: u8)
      requires InRange(g)
      modifies this
      ensures InRange(g) && g == Handle(old(g), e)
    {
      hide OnStop, OnTransmit, OnFirstByte, OnNextByte, TransmitValue;
      value := 0;
      match e.data {
        case NoData =>
        case Transmit => value := TransmitRequest();
        case FirstByte(b) => ReceiveFirst(b);
        case NextByte(b) => ReceiveNext(b);
      }
      if e.stop {
        Stop();
      }
    }
  }
}
