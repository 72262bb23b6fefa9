/**
 The bus against a byte-level protocol: a master that changes one line at a time, and what
 whole transactions make the device see (NXP UM10204, sections 3.1.4 to 3.1.6 and 3.1.10).
 */
module I2cProtocol {
  import opened Machine
  import opened I2cBus

  // ---- The master --------------------------------------------------------------------

  /** The clock held high with this data, from low; the master samples the device's line here. */
  function High(b: Bus, data: Line, supply: nat -> Byte): Bus {
    Step(Step(b, 0, data, supply), 1, data, supply)
  }

  function Clock(b: Bus, data: Line, supply: nat -> Byte): Bus {
    Step(High(b, data, supply), 0, data, supply)
  }

  function Start(b: Bus, supply: nat -> Byte): Bus {
    Step(Step(b, 1, 0, supply), 0, 0, supply)
  }

  function Stop(b: Bus, supply: nat -> Byte): Bus {
    Step(Step(Step(b, 0, 0, supply), 1, 0, supply), 1, 1, supply)
  }

  /** The top `n` bits of `v`, highest first. */
  function Send(b: Bus, v: Byte, n: nat, supply: nat -> Byte): Bus
    decreases n
  {
    if n == 0 then b else Send(Clock(b, Top(v), supply), v << 1, n - 1, supply)
  }

  datatype Received = Received(b: Bus, v: Byte)

  /** `n` bits sampled into `v`, the data line released. */
  function Receive(b: Bus, v: Byte, n: nat, supply: nat -> Byte): Received
    decreases n
  {
    if n == 0 then Received(b, v)
    else Receive(Clock(b, 1, supply), (v << 1) | Bit(High(b, 1, supply).out), n - 1, supply)
  }

  /** A byte, then the clock in which the device may acknowledge. */
  function SendByte(b: Bus, v: Byte, supply: nat -> Byte): Bus {
    Clock(Send(b, v, 8, supply), 1, supply)
  }

  predicate Acknowledged(b: Bus, v: Byte, supply: nat -> Byte) {
    High(Send(b, v, 8, supply), 1, supply).out == 0
  }

  function Sender(supply: nat -> Byte): (Bus, Byte) -> Bus {
    (b: Bus, v: Byte) => SendByte(b, v, supply)
  }

  function SendAll(send: (Bus, Byte) -> Bus, b: Bus, bytes: seq<Byte>): Bus
    decreases |bytes|
  {
    if bytes == [] then b else SendAll(send, send(b, bytes[0]), bytes[1..])
  }

  function SendBytes(b: Bus, bytes: seq<Byte>, supply: nat -> Byte): Bus {
    SendAll(Sender(supply), b, bytes)
  }

  datatype ReceivedAll = ReceivedAll(b: Bus, bytes: seq<Byte>)

  /** A byte received, then acknowledged unless it is the last one wanted. */
  function ReceiveByte(b: Bus, last: bool, supply: nat -> Byte): Received {
    var r := Receive(b, 0, 8, supply);
    Received(Clock(r.b, if last then 1 else 0, supply), r.v)
  }

  function Receiver(supply: nat -> Byte): (Bus, bool) -> Received {
    (b: Bus, last: bool) => ReceiveByte(b, last, supply)
  }

  function ReceiveAll(take: (Bus, bool) -> Received, b: Bus, n: nat): ReceivedAll
    decreases n
  {
    if n == 0 then ReceivedAll(b, [])
    else
      var r := take(b, n == 1);
      var rest := ReceiveAll(take, r.b, n - 1);
      ReceivedAll(rest.b, [r.v] + rest.bytes)
  }

  /** `n` bytes, every one acknowledged but the last. */
  function ReceiveBytes(b: Bus, n: nat, supply: nat -> Byte): ReceivedAll {
    ReceiveAll(Receiver(supply), b, n)
  }

  function Addressed(b: Bus, device: Byte, reading: bool, supply: nat -> Byte): Bus {
    SendByte(Start(b, supply), (device << 1) | (if reading then 1 else 0), supply)
  }

  function WriteTransaction(b: Bus, device: Byte, bytes: seq<Byte>, supply: nat -> Byte): Bus {
    Stop(SendBytes(Addressed(b, device, false, supply), bytes, supply), supply)
  }

  function ReadTransaction(b: Bus, device: Byte, n: nat, supply: nat -> Byte): ReceivedAll {
    var r := ReceiveBytes(Addressed(b, device, true, supply), n, supply);
    ReceivedAll(Stop(r.b, supply), r.bytes)
  }

  // ---- What the device should see -------------------------------------------------------

  /** Both lines high, between transactions. */
  predicate Idle(b: Bus) {
    b.state == STOPPED && !b.readMode && b.count == 0 && b.clk == 1 && b.data == 1
  }

  /** Every byte after the first is handed over and then written. */
  function Pairs(device: Byte, bytes: seq<Byte>): seq<Call> {
    if bytes == [] then [] else [Data(device, bytes[0]), Write(device)] + Pairs(device, bytes[1..])
  }

  function WriteCalls(device: Byte, bytes: seq<Byte>): seq<Call> {
    if bytes == [] then [] else [Data(device, bytes[0])] + Pairs(device, bytes[1..])
  }

  function ReadCalls(device: Byte, n: nat): seq<Call> {
    seq(n, i => Read(device))
  }

  // ---- Bits ---------------------------------------------------------------------------------

  function In(x: Byte, v: Byte): Byte {
    (x << 1) | Bit(Top(v))
  }

  function Rolled(x: Byte, v: Byte, n: nat): Byte
    decreases n
  {
    if n == 0 then x else Rolled(In(x, v), v << 1, n - 1)
  }

  lemma EightShifts(x: Byte, v: Byte)
    ensures var x2 := In(In(x, v), v << 1); var v2 := v << 2;
            var x4 := In(In(x2, v2), v2 << 1); var v4 := v2 << 2;
            var x6 := In(In(x4, v4), v4 << 1); var v6 := v4 << 2;
            In(In(x6, v6), v6 << 1) == v
  {
  }

  lemma RolledTwo(x: Byte, v: Byte, n: nat)
    ensures Rolled(x, v, n + 2) == Rolled(In(In(x, v), v << 1), v << 2, n)
  {
    assert (v << 1) << 1 == v << 2;
  }

  /** Eight bits in, and whatever was there before is gone. */
  lemma RolledByte(x: Byte, v: Byte)
    ensures Rolled(x, v, 8) == v
  {
    var x2, v2 := In(In(x, v), v << 1), v << 2;
    var x4, v4 := In(In(x2, v2), v2 << 1), v2 << 2;
    var x6, v6 := In(In(x4, v4), v4 << 1), v4 << 2;
    RolledTwo(x, v, 6);
    RolledTwo(x2, v2, 4);
    RolledTwo(x4, v4, 2);
    RolledTwo(x6, v6, 0);
    EightShifts(x, v);
  }

  lemma StepLow(b: Bus, data: Line, supply: nat -> Byte)
    requires b.clk == 0 && b.state >= 0
    ensures Step(b, 0, data, supply) == b.(data := data)
  {
  }

  lemma StepRise(b: Bus, supply: nat -> Byte)
    requires b.clk == 0 && b.state >= 0
    ensures Step(b, 1, b.data, supply) == Clocked(b, b.data, supply).(clk := 1)
  {
  }

  lemma StepFall(b: Bus, supply: nat -> Byte)
    requires b.clk == 1 && b.state >= 0
    ensures Step(b, 0, b.data, supply) == b.(clk := 0)
  {
  }

  lemma ByteDoneLines(b: Bus, d: Line)
    ensures ByteDone(b.(data := d)) == ByteDone(b).(data := d)
  {
    var c := b.(data := d);
    assert c.value == b.value && c.count == b.count && c.calls == b.calls && c.device == b.device;
    if b.count > 0 {
      var calls := b.calls + [Data(b.device, b.value)] + (if b.count == 1 then [] else [Write(b.device)]);
      assert ByteDone(b) == b.(calls := calls, out := 0, count := b.count + 1, state := 0);
      assert ByteDone(c) == c.(calls := calls, out := 0, count := b.count + 1, state := 0);
    }
  }

  lemma ByteDoneKeepsLines(b: Bus)
    ensures ByteDone(b).state == 0 && ByteDone(b).clk == b.clk && ByteDone(b).data == b.data
  {
  }

  lemma ShownLines(b: Bus, supply: nat -> Byte, d: Line)
    ensures Shown(b.(data := d)) == Shown(b).(data := d)
    ensures Fetched(b.(data := d), supply) == Fetched(b, supply).(data := d)
  {
  }

  lemma ShiftLines(b: Bus, data: Line, supply: nat -> Byte, d: Line)
    requires 0 <= b.state < 8
    ensures Clocked(b.(data := d), data, supply) == Clocked(b, data, supply).(data := d)
    ensures Clocked(b, data, supply).clk == b.clk && Clocked(b, data, supply).data == b.data
  {
    if b.readMode {
      ShownLines(b, supply, d);
      ShownLines(Fetched(b, supply), supply, d);
    }
  }

  lemma NinthLines(b: Bus, data: Line, supply: nat -> Byte, d: Line)
    requires b.state == 8
    ensures Clocked(b.(data := d), data, supply) == Clocked(b, data, supply).(data := d)
    ensures Clocked(b, data, supply).clk == b.clk && Clocked(b, data, supply).data == b.data
  {
    ByteDoneLines(b.(out := 1), d);
    ByteDoneKeepsLines(b.(out := 1));
  }

  /** The lines are none of the clocked part's business. */
  lemma ClockedLines(b: Bus, data: Line, supply: nat -> Byte, d: Line)
    requires 0 <= b.state <= 8
    ensures Clocked(b.(data := d), data, supply) == Clocked(b, data, supply).(data := d)
    ensures Clocked(b, data, supply).state >= 0
    ensures Clocked(b, data, supply).clk == b.clk && Clocked(b, data, supply).data == b.data
  {
    if b.state < 8 {
      ShiftLines(b, data, supply, d);
    } else {
      NinthLines(b, data, supply, d);
      ByteDoneKeepsLines(b.(out := 1));
    }
  }

  lemma ClockEffect(b: Bus, data: Line, supply: nat -> Byte) returns (c: Bus)
    requires b.clk == 0 && 0 <= b.state <= 8
    ensures c == Clocked(b, data, supply) && 0 <= c.state
    ensures High(b, data, supply) == c.(clk := 1, data := data)
    ensures Clock(b, data, supply) == c.(clk := 0, data := data)
  {
    c := Clocked(b, data, supply);
    ClockedLines(b, data, supply, data);
    StepLow(b, data, supply);
    StepRise(b.(data := data), supply);
    StepFall(c.(clk := 1, data := data), supply);
  }

  // ---- Bytes ------------------------------------------------------------------------------

  /** Between two bits of a transaction, writing; everything but the value and the lines as given. */
  predicate Writing(b: Bus, state: int, count: nat, device: Byte, calls: seq<Call>, fetched: nat) {
    b.clk == 0 && b.state == state && !b.readMode && b.count == count && b.device == device
    && b.calls == calls && b.fetched == fetched
  }

  lemma BitIn(b: Bus, data: Line, supply: nat -> Byte)
    requires 0 <= b.state < 8 && Writing(b, b.state, b.count, b.device, b.calls, b.fetched)
    ensures var c := Clock(b, data, supply);
            Writing(c, b.state + 1, b.count, b.device, b.calls, b.fetched) && c.value == (b.value << 1) | Bit(data)
  {
    var c := ClockEffect(b, data, supply);
  }

  lemma {:induction false} SendEffect(b: Bus, v: Byte, n: nat, supply: nat -> Byte)
    requires 0 <= b.state && b.state + n <= 8 && Writing(b, b.state, b.count, b.device, b.calls, b.fetched)
    ensures var s := Send(b, v, n, supply);
            Writing(s, b.state + n, b.count, b.device, b.calls, b.fetched) && s.value == Rolled(b.value, v, n)
    decreases n
  {
    if n > 0 {
      BitIn(b, Top(v), supply);
      SendEffect(Clock(b, Top(v), supply), v << 1, n - 1, supply);
    }
  }

  /** The ninth clock of a byte. */
  lemma SendByteEffect(b: Bus, v: Byte, supply: nat -> Byte)
    requires Writing(b, 0, b.count, b.device, b.calls, b.fetched)
    ensures var s := Send(b, v, 8, supply);
            s.value == v && Writing(s, 8, b.count, b.device, b.calls, b.fetched)
            && SendByte(b, v, supply) == ByteDone(s.(out := 1)).(clk := 0, data := 1)
            && (Acknowledged(b, v, supply) <==> ByteDone(s.(out := 1)).out == 0)
  {
    SendEffect(b, v, 8, supply);
    RolledByte(b.value, v);
    var c := ClockEffect(Send(b, v, 8, supply), 1, supply);
  }

  /** The system controller and the clock. */
  predicate Known(device: Byte) {
    device == 0x42 || device == 0x6F
  }

  lemma AddressByte(device: Byte, reading: bool)
    requires Known(device)
    ensures var v := (device << 1) | (if reading then 1 else 0);
            v >> 1 == device && ((v & 1 != 0) <==> reading)
  {
  }

  /** An idle bus starts only when both lines are low. */
  lemma StartNeedsBoth(b: Bus, supply: nat -> Byte)
    requires Idle(b)
    ensures Step(b, 1, 0, supply) == b.(data := 0) && Step(b, 0, 1, supply) == b.(clk := 0)
    ensures Step(Step(b, 0, 1, supply), 0, 0, supply) == b.(clk := 0, data := 0, state := 0)
  {
  }

  lemma StartEffect(b: Bus, supply: nat -> Byte)
    requires Idle(b)
    ensures Writing(Start(b, supply), 0, 0, b.device, b.calls, b.fetched)
  {
  }

  /** A known device acknowledges its address and takes the direction from it. */
  lemma AddressEffect(b: Bus, device: Byte, reading: bool, supply: nat -> Byte)
    requires Idle(b) && Known(device)
    ensures var a := Addressed(b, device, reading, supply);
            a.clk == 0 && a.state == 0 && a.readMode == reading && a.count == 1 && a.device == device
            && a.calls == b.calls && a.fetched == b.fetched
    ensures Acknowledged(Start(b, supply), (device << 1) | (if reading then 1 else 0), supply)
  {
    StartEffect(b, supply);
    AddressByte(device, reading);
    SendByteEffect(Start(b, supply), (device << 1) | (if reading then 1 else 0), supply);
  }

  /** A written byte is handed over; from the second on, the device is told to write. */
  lemma DataEffect(b: Bus, v: Byte, supply: nat -> Byte)
    requires Writing(b, 0, b.count, b.device, b.calls, b.fetched) && b.count >= 1
    ensures Writing(SendByte(b, v, supply), 0, b.count + 1, b.device,
                    b.calls + [Data(b.device, v)] + (if b.count == 1 then [] else [Write(b.device)]), b.fetched)
    ensures Acknowledged(b, v, supply)
  {
    SendByteEffect(b, v, supply);
  }

  /** What sending a data byte does, without the eighteen steps it takes. */
  ghost predicate HandsOver(send: (Bus, Byte) -> Bus) {
    forall b: Bus, v: Byte {:trigger send(b, v)} ::
      Writing(b, 0, b.count, b.device, b.calls, b.fetched) && b.count >= 1 ==>
      Writing(send(b, v), 0, b.count + 1, b.device,
              b.calls + [Data(b.device, v)] + (if b.count == 1 then [] else [Write(b.device)]), b.fetched)
  }

  lemma SenderHandsOver(supply: nat -> Byte)
    ensures HandsOver(Sender(supply))
  {
    forall b: Bus, v | Writing(b, 0, b.count, b.device, b.calls, b.fetched) && b.count >= 1
      ensures Writing(Sender(supply)(b, v), 0, b.count + 1, b.device,
                      b.calls + [Data(b.device, v)] + (if b.count == 1 then [] else [Write(b.device)]), b.fetched)
    {
      DataEffect(b, v, supply);
    }
  }

  lemma PairsJoin(calls: seq<Call>, device: Byte, bytes: seq<Byte>)
    requires bytes != []
    ensures (calls + [Data(device, bytes[0])] + [Write(device)]) + Pairs(device, bytes[1..])
         == calls + Pairs(device, bytes)
    ensures (calls + [Data(device, bytes[0])] + []) + Pairs(device, bytes[1..])
         == calls + WriteCalls(device, bytes)
  {
  }

  lemma Handed(send: (Bus, Byte) -> Bus, b: Bus, v: Byte)
    requires HandsOver(send) && Writing(b, 0, b.count, b.device, b.calls, b.fetched) && b.count >= 1
    ensures Writing(send(b, v), 0, b.count + 1, b.device,
                    b.calls + [Data(b.device, v)] + (if b.count == 1 then [] else [Write(b.device)]), b.fetched)
  {
  }

  lemma {:induction false} LaterBytes(send: (Bus, Byte) -> Bus, b: Bus, bytes: seq<Byte>)
    requires HandsOver(send) && Writing(b, 0, b.count, b.device, b.calls, b.fetched) && b.count >= 2
    ensures Writing(SendAll(send, b, bytes), 0, b.count + |bytes|, b.device,
                    b.calls + Pairs(b.device, bytes), b.fetched)
    decreases |bytes|
  {
    if bytes == [] {
      assert b.calls + [] == b.calls;
    } else {
      Handed(send, b, bytes[0]);
      LaterBytes(send, send(b, bytes[0]), bytes[1..]);
      PairsJoin(b.calls, b.device, bytes);
    }
  }

  lemma AllBytes(send: (Bus, Byte) -> Bus, b: Bus, bytes: seq<Byte>)
    requires HandsOver(send) && Writing(b, 0, 1, b.device, b.calls, b.fetched)
    ensures Writing(SendAll(send, b, bytes), 0, 1 + |bytes|, b.device, b.calls + WriteCalls(b.device, bytes), b.fetched)
  {
    if bytes == [] {
      assert b.calls + [] == b.calls;
    } else {
      Handed(send, b, bytes[0]);
      LaterBytes(send, send(b, bytes[0]), bytes[1..]);
      PairsJoin(b.calls, b.device, bytes);
    }
  }

  lemma StopEffect(b: Bus, supply: nat -> Byte)
    requires Writing(b, 0, b.count, b.device, b.calls, b.fetched)
    ensures Idle(Stop(b, supply)) && Stop(b, supply).calls == b.calls && Stop(b, supply).fetched == b.fetched
  {
    StepLow(b, 0, supply);
    StepRise(b.(data := 0), supply);
  }

  /** A write transaction: the device sees the first byte, then each later byte followed by a
      write, in order and nothing else; the bus is idle again. */
  lemma WriteSeen(b: Bus, device: Byte, bytes: seq<Byte>, supply: nat -> Byte)
    requires Idle(b) && Known(device)
    ensures var r := WriteTransaction(b, device, bytes, supply);
            Idle(r) && r.calls == b.calls + WriteCalls(device, bytes) && r.fetched == b.fetched
  {
    AddressEffect(b, device, false, supply);
    var a := Addressed(b, device, false, supply);
    SenderHandsOver(supply);
    AllBytes(Sender(supply), a, bytes);
    StopEffect(SendBytes(a, bytes, supply), supply);
  }

  // ---- Reading ----------------------------------------------------------------------------

  predicate Reading(b: Bus, state: int, device: Byte, calls: seq<Call>, fetched: nat) {
    b.clk == 0 && b.state == state && b.readMode && b.device == device && b.calls == calls && b.fetched == fetched
  }

  lemma BitOut(b: Bus, supply: nat -> Byte)
    requires 1 <= b.state < 8 && Reading(b, b.state, b.device, b.calls, b.fetched)
    ensures var c := Clock(b, 1, supply);
            Reading(c, b.state + 1, b.device, b.calls, b.fetched) && c.value == b.value << 1
            && High(b, 1, supply).out == Top(b.value)
  {
    var c := ClockEffect(b, 1, supply);
  }

  lemma {:induction false} ReceiveEffect(b: Bus, v: Byte, n: nat, supply: nat -> Byte)
    requires 1 <= b.state && b.state + n <= 8 && Reading(b, b.state, b.device, b.calls, b.fetched)
    ensures var r := Receive(b, v, n, supply);
            Reading(r.b, b.state + n, b.device, b.calls, b.fetched) && r.v == Rolled(v, b.value, n)
    decreases n
  {
    if n > 0 {
      BitOut(b, supply);
      ReceiveEffect(Clock(b, 1, supply), In(v, b.value), n - 1, supply);
    }
  }

  /** The first bit fetches the byte and shows its top. */
  lemma FirstBit(b: Bus, supply: nat -> Byte)
    requires Reading(b, 0, b.device, b.calls, b.fetched)
    ensures var c, w := Clock(b, 1, supply), supply(b.fetched);
            Reading(c, 1, b.device, b.calls + [Read(b.device)], b.fetched + 1) && c.value == w << 1
            && High(b, 1, supply).out == Top(w)
  {
    var c := ClockEffect(b, 1, supply);
  }

  /** The eight bits together are the byte. */
  lemma ReceiveEight(b: Bus, supply: nat -> Byte)
    requires Reading(b, 0, b.device, b.calls, b.fetched)
    ensures var r := Receive(b, 0, 8, supply);
            r.v == supply(b.fetched) && Reading(r.b, 8, b.device, b.calls + [Read(b.device)], b.fetched + 1)
  {
    var w := supply(b.fetched);
    FirstBit(b, supply);
    ReceiveEffect(Clock(b, 1, supply), In(0, w), 7, supply);
    RolledByte(0, w);
    assert Rolled(0, w, 8) == Rolled(In(0, w), w << 1, 7);
  }

  lemma TakeEffect(b: Bus, last: bool, supply: nat -> Byte)
    requires Reading(b, 0, b.device, b.calls, b.fetched)
    ensures var r := ReceiveByte(b, last, supply);
            r.v == supply(b.fetched)
            && if last then Writing(r.b, 0, 0, b.device, b.calls + [Read(b.device)], b.fetched + 1)
               else Reading(r.b, 0, b.device, b.calls + [Read(b.device)], b.fetched + 1)
  {
    ReceiveEight(b, supply);
    var c := ClockEffect(Receive(b, 0, 8, supply).b, if last then 1 else 0, supply);
  }

  ghost predicate Takes(take: (Bus, bool) -> Received, supply: nat -> Byte) {
    forall b: Bus, last: bool {:trigger take(b, last)} ::
      Reading(b, 0, b.device, b.calls, b.fetched) ==>
        take(b, last).v == supply(b.fetched)
        && if last then Writing(take(b, last).b, 0, 0, b.device, b.calls + [Read(b.device)], b.fetched + 1)
           else Reading(take(b, last).b, 0, b.device, b.calls + [Read(b.device)], b.fetched + 1)
  }

  lemma ReceiverTakes(supply: nat -> Byte)
    ensures Takes(Receiver(supply), supply)
  {
    forall b: Bus, last: bool | Reading(b, 0, b.device, b.calls, b.fetched)
      ensures Receiver(supply)(b, last).v == supply(b.fetched)
      ensures if last then Writing(Receiver(supply)(b, last).b, 0, 0, b.device,
                                   b.calls + [Read(b.device)], b.fetched + 1)
              else Reading(Receiver(supply)(b, last).b, 0, b.device, b.calls + [Read(b.device)], b.fetched + 1)
    {
      TakeEffect(b, last, supply);
    }
  }

  lemma Taken(take: (Bus, bool) -> Received, b: Bus, last: bool, supply: nat -> Byte)
    requires Takes(take, supply) && Reading(b, 0, b.device, b.calls, b.fetched)
    ensures take(b, last).v == supply(b.fetched)
    ensures if last then Writing(take(b, last).b, 0, 0, b.device, b.calls + [Read(b.device)], b.fetched + 1)
            else Reading(take(b, last).b, 0, b.device, b.calls + [Read(b.device)], b.fetched + 1)
  {
  }

  /** The next `n` bytes of the device. */
  function Supplied(supply: nat -> Byte, from: nat, n: nat): seq<Byte> {
    seq(n, i requires 0 <= i => supply(from + i))
  }

  lemma {:induction false} ReceiveAllEffect(take: (Bus, bool) -> Received, b: Bus, n: nat, supply: nat -> Byte)
    requires Takes(take, supply) && Reading(b, 0, b.device, b.calls, b.fetched) && n > 0
    ensures var r := ReceiveAll(take, b, n);
            Writing(r.b, 0, 0, b.device, b.calls + ReadCalls(b.device, n), b.fetched + n)
            && r.bytes == Supplied(supply, b.fetched, n)
    decreases n
  {
    Taken(take, b, n == 1, supply);
    var r := take(b, n == 1);
    if n == 1 {
      assert [Read(b.device)] == ReadCalls(b.device, 1);
      assert [r.v] + [] == Supplied(supply, b.fetched, 1);
    } else {
      ReceiveAllEffect(take, r.b, n - 1, supply);
      assert (b.calls + [Read(b.device)]) + ReadCalls(b.device, n - 1) == b.calls + ReadCalls(b.device, n);
      assert [r.v] + Supplied(supply, b.fetched + 1, n - 1) == Supplied(supply, b.fetched, n);
    }
  }

  /** A read transaction of at least one byte: the master samples exactly the device's next
      bytes, one read of the device each, and the bus is idle again. */
  lemma ReadSeen(b: Bus, device: Byte, n: nat, supply: nat -> Byte)
    requires Idle(b) && Known(device) && n > 0
    ensures var r := ReadTransaction(b, device, n, supply);
            r.bytes == Supplied(supply, b.fetched, n) && Idle(r.b)
            && r.b.calls == b.calls + ReadCalls(device, n) && r.b.fetched == b.fetched + n
  {
    AddressEffect(b, device, true, supply);
    var a := Addressed(b, device, true, supply);
    ReceiverTakes(supply);
    ReceiveAllEffect(Receiver(supply), a, n, supply);
    StopEffect(ReceiveBytes(a, n, supply).b, supply);
  }

  /** A read transaction that asks for no bytes still costs the device one: the clock of the
      stop condition is taken for the first bit of a byte. */
  lemma ProbeCostsAByte(b: Bus, device: Byte, supply: nat -> Byte)
    requires Idle(b) && Known(device)
    ensures var r := ReadTransaction(b, device, 0, supply);
            r.bytes == [] && Idle(r.b)
            && r.b.calls == b.calls + [Read(device)] && r.b.fetched == b.fetched + 1
  {
    AddressEffect(b, device, true, supply);
    var a := Addressed(b, device, true, supply);
    StepLow(a, 0, supply);
    StepRise(a.(data := 0), supply);
  }

  /** An address nobody has is not acknowledged, and no device sees anything of it. */
  lemma StrangerUnseen(b: Bus, v: Byte, supply: nat -> Byte)
    requires Idle(b) && !Known(v >> 1)
    ensures var a := SendByte(Start(b, supply), v, supply);
            !Acknowledged(Start(b, supply), v, supply) && Writing(a, 0, 0, v >> 1, b.calls, b.fetched)
            && Idle(Stop(a, supply)) && Stop(a, supply).calls == b.calls && Stop(a, supply).fetched == b.fetched
  {
    StartEffect(b, supply);
    SendByteEffect(Start(b, supply), v, supply);
    StopEffect(SendByte(Start(b, supply), v, supply), supply);
  }
}
