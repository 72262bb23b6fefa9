/**
 The I2C slave: a bus state machine stepped on every change of the two lines, and the
 devices behind it as a record of the calls they get. The `n`-th byte a device is asked
 for is `supply(n)`.
 */
module I2cBus {
  import opened Machine

  type Line = l: int | 0 <= l <= 1

  const STOPPED: int := -1
  const SMC: Byte := 0x42
  const RTC: Byte := 0x6F

  datatype Call = Data(device: Byte, v: Byte) | Write(device: Byte) | Read(device: Byte)

  datatype Bus = Bus(
    state: int, readMode: bool, value: Byte, count: nat, device: Byte,
    clk: Line, data: Line, out: Line,
    calls: seq<Call>, fetched: nat)

  function Bit(l: Line): Byte {
    if l == 1 then 1 else 0
  }

  function Top(v: Byte): Line {
    if v & 0x80 != 0 then 1 else 0
  }

  /** The eighth bit is done: an address, a first byte, or a later one. */
  function ByteDone(b: Bus): Bus {
    if b.count == 0 then
      var device := b.value >> 1;
      if device != SMC && device != RTC
      then b.(device := device, count := 0, readMode := false, state := 0)
      else b.(device := device, readMode := b.value & 1 != 0, out := 0, count := 1, state := 0)
    else
      b.(calls := b.calls + [Data(b.device, b.value)] + (if b.count == 1 then [] else [Write(b.device)]),
         out := 0, count := b.count + 1, state := 0)
  }

  /** The device is asked for its next byte. */
  function Fetched(b: Bus, supply: nat -> Byte): Bus {
    b.(calls := b.calls + [Read(b.device)], fetched := b.fetched + 1, value := supply(b.fetched))
  }

  /** The top bit of the value goes out on the line. */
  function Shown(b: Bus): Bus {
    b.(out := Top(b.value), value := b.value << 1, state := b.state + 1)
  }

  /** The clock has risen inside a transaction. */
  function Clocked(b: Bus, data: Line, supply: nat -> Byte): Bus {
    if b.state < 8 then
      if b.readMode then Shown(if b.state == 0 then Fetched(b, supply) else b)
      else b.(out := 1, value := (b.value << 1) | Bit(data), state := b.state + 1)
    else if b.readMode then
      if data == 1 then b.(out := 1, count := 0, readMode := false, state := 0) else b.(out := 1, state := 0)
    else ByteDone(b.(out := 1))
  }

  function Started(b: Bus, clk: Line, data: Line): Bus {
    if b.state == STOPPED && clk == 0 && data == 0 then b.(state := 0) else b
  }

  function Stopped(b: Bus, clk: Line, data: Line): Bus {
    if b.state == 1 && clk == 1 && data == 1 && b.data == 0
    then b.(state := STOPPED, count := 0, readMode := false) else b
  }

  /** One step of the bus: the lines as the processor now drives them. */
  function Step(b: Bus, clk: Line, data: Line, supply: nat -> Byte): Bus {
    if b.clk == clk && b.data == data then b
    else
      var c := Stopped(Started(b, clk, data), clk, data);
      var d := if c.state != STOPPED && clk == 1 && b.clk == 0 then Clocked(c, data, supply) else c;
      d.(clk := clk, data := data)
  }

  class I2c {
    const supply: nat -> Byte
    var state: int
    var readMode: bool
    var value: Byte
    var count: nat
    var device: Byte
    var oldClk: Line
    var oldData: Line
    var out: Line
    var calls: seq<Call>
    var fetched: nat

    ghost function State(): Bus
      reads this
    {
      Bus(state, readMode, value, count, device, oldClk, oldData, out, calls, fetched)
    }

    constructor (supply: nat -> Byte)
      ensures State() == Bus(STOPPED, false, 0, 0, 0, 0, 0, 0, [], 0) && this.supply == supply
    {
      this.supply := supply;
      state, readMode, value, count, device := STOPPED, false, 0, 0, 0;
      oldClk, oldData, out, calls, fetched := 0, 0, 0, [], 0;
    }

    /** The address selects a device and a direction; later bytes go to the device. */
    method FinishByte()
      modifies this
      ensures State() == ByteDone(old(State()))
    {
      var ack := true;
      if count == 0 {
        device := value >> 1;
        readMode := value & 1 != 0;
        if device != SMC && device != RTC {
          ack := false;
        }
      } else if count == 1 {
        calls := calls + [Data(device, value)];
      } else {
        calls := calls + [Data(device, value)] + [Write(device)];
      }
      if ack {
        out := 0;
        count := count + 1;
      } else {
        count := 0;
        readMode := false;
      }
      state := 0;
    }

    method Fetch()
      modifies this
      ensures State() == Fetched(old(State()), supply)
    {
      calls := calls + [Read(device)];
      value := supply(fetched);
      fetched := fetched + 1;
    }

    method Show()
      modifies this
      ensures State() == Shown(old(State()))
    {
      out := Top(value);
      value := value << 1;
      state := state + 1;
    }

    /** One of the eight data bits, out of the device or into the value. */
    method ShiftBit(data: Line)
      requires state < 8
      modifies this
      ensures State() == Clocked(old(State()), data, supply)
    {
      if readMode {
        if state == 0 {
          Fetch();
        }
        Show();
      } else {
        out := 1;
        value := (value << 1) | Bit(data);
        state := state + 1;
      }
    }

    method RisingClock(data: Line)
      modifies this
      ensures State() == Clocked(old(State()), data, supply)
    {
      if state < 8 {
        ShiftBit(data);
      } else {
        out := 1;
        if !readMode {
          FinishByte();
        } else {
          if data == 1 {
            count := 0;
            readMode := false;
          }
          state := 0;
        }
      }
    }

    method StepBus(clk: Line, data: Line)
      modifies this
      ensures State() == Step(old(State()), clk, data, supply)
    {
      if oldClk == clk && oldData == data {
        return;
      }
      if state == STOPPED && clk == 0 && data == 0 {
        state := 0;
      }
      if state == 1 && clk == 1 && data == 1 && oldData == 0 {
        state := STOPPED;
        count := 0;
        readMode := false;
      }
      if state != STOPPED && clk == 1 && oldClk == 0 {
        RisingClock(data);
      }
      oldClk, oldData := clk, data;
    }
  }
}
