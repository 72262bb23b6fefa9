/**
 The debugger's run control as functions on its state: the commands front ends give, the
 full status check made before an instruction, and the fast poll that usually skips it.
 Stepping by source line is off. The socket and the paused interface appear as the
 commands they deliver; what a `Check` carries is everything a status check can observe.
 */
module DebuggerState {
  import opened Machine
  import opened Breakpoints
  import opened HitCounts
  import opened DebugCore

  const INTERVAL: nat := 1000

  datatype Mode = Stopped | Stepping | Running

  datatype Reason = NoReason | Interrupt | DataBreakpoint | StepDone | BreakpointHit | User | PauseAsked

  /** Where a step-over, step-out or run-to ends; none while `pc` is negative. */
  datatype Target = Target(pc: int, bank: Bank, selector: int)
  const NoTarget: Target := Target(-1, 0, BANK_ANY)

  /** What the display shows as the current instruction. */
  datatype Shown = Shown(pc: int, bank: Bank, x16: int)

  /** Where and when execution was last resumed; spent while `pc` is negative. */
  datatype Guard = Guard(pc: int, bank: Bank, clock: int)

  datatype Irq = Irq(entered: bool, breakOn: bool, follow: bool)

  datatype Debugger = Debugger(
    gen2: bool, mode: Mode, shown: Shown, target: Target, targetOwner: int, guard: Guard,
    watchPending: bool, irq: Irq, tick: nat,
    bps: seq<Breakpoint>, infos: map<BpKey, Info>,
    reason: Reason, log: seq<Reason>)

  datatype Command =
    | Continue
    | StepInto
    | StepOver(opcode: Byte, owner: int)
    | StepOut(frame: bool, ret: Addr, bank: Bank, owner: int)
    | RunTo(pc: Addr, bank: Bank, owner: int)
    | Pause
    | CancelStep
    | CancelStepFor(owner: int)
    | ServerRuns
    | ServerStops
    | WatchHit
    | InterruptEntered
    | BreakOnInterrupt(on: bool)
    | FollowInterrupts(on: bool)
    | Retable(bps: seq<Breakpoint>)
    | SetCondition(key: BpKey, operand: int, operandAddr: Addr, op: int, value: nat)
    | ClearCondition(key: BpKey)
    | SetIgnore(key: BpKey, n: nat)
    | ResetHits(key: BpKey)
    | Forget(key: BpKey)
    | ForgetAll

  // ---- Commands -------------------------------------------------------------------

  function Here(d: Debugger, m: Cpu): Shown {
    Shown(m.pc, m.k, CurrentX16Bank(d.gen2, m.pc, m.k, m.ram, m.rom))
  }

  function Announce(d: Debugger, why: Reason): Debugger {
    d.(reason := why, log := d.log + [why])
  }

  /** Execution leaves the instruction it was stopped at. */
  function Armed(d: Debugger, m: Cpu): Debugger {
    d.(guard := Guard(m.pc, m.k, m.clock))
  }

  function Untargeted(d: Debugger): Debugger {
    d.(target := NoTarget, targetOwner := OWNER_COUNT)
  }

  function RunUntil(d: Debugger, m: Cpu, pc: Addr, bank: Bank, owner: int): Debugger {
    Armed(d, m).(
      target := Target(pc, bank, CurrentX16Bank(d.gen2, pc, bank, m.ram, m.rom)),
      targetOwner := owner, mode := Running)
  }

  function StepOne(d: Debugger, m: Cpu): Debugger {
    Armed(d, m).(mode := Stepping, shown := Here(d, m))
  }

  function BreakIn(d: Debugger, m: Cpu): Debugger {
    var halted := d.(reason := User, mode := Stopped, shown := Here(d, m));
    if d.mode != Stopped then Announce(halted, PauseAsked) else halted
  }

  predicate IsCall(opcode: Byte, m: Cpu) {
    opcode == 0x20 || (m.is65c816 && (opcode == 0xFC || opcode == 0x22))
  }

  function TargetOwner(d: Debugger): int {
    if d.target.pc < 0 then OWNER_COUNT else d.targetOwner
  }

  /** What a command does to the condition records. */
  function Reinfo(infos: map<BpKey, Info>, cmd: Command): map<BpKey, Info> {
    match cmd
    case SetCondition(key, operand, operandAddr, op, value) =>
      infos[key := Info(true, operand, operandAddr, op, value, InfoOf(infos, key).ignoring, InfoOf(infos, key).hits)]
    case ClearCondition(key) => if key in infos then infos[key := infos[key].(hasCond := false)] else infos
    case SetIgnore(key, n) => infos[key := InfoOf(infos, key).(ignoring := n)]
    case ResetHits(key) => if key in infos then infos[key := infos[key].(hits := 0)] else infos
    case Forget(key) => infos - {key}
    case ForgetAll => map[]
    case _ => infos
  }

  function Obey(d: Debugger, m: Cpu, cmd: Command): Debugger {
    match cmd
    case Continue => Armed(Untargeted(d), m).(mode := Running)
    case StepInto => StepOne(d, m)
    case StepOver(opcode, owner) =>
      if IsCall(opcode, m) then RunUntil(d, m, After(m.pc, if opcode == 0x22 then 4 else 3), m.k, owner)
      else StepOne(d, m)
    case StepOut(frame, ret, bank, owner) => if frame then RunUntil(d, m, ret, bank, owner) else StepOne(d, m)
    case RunTo(pc, bank, owner) => RunUntil(d, m, pc, bank, owner)
    case Pause => BreakIn(d, m)
    case CancelStep => Untargeted(d)
    case CancelStepFor(owner) => if TargetOwner(d) == owner then Untargeted(d) else d
    case ServerRuns => d.(mode := Running)
    case ServerStops => d.(mode := Stopped)
    case WatchHit => if d.mode != Stopped then d.(mode := Stopped, watchPending := true) else d
    case InterruptEntered => d.(irq := d.irq.(entered := true))
    case BreakOnInterrupt(on) => d.(irq := d.irq.(breakOn := on))
    case FollowInterrupts(on) => d.(irq := d.irq.(follow := on))
    case Retable(bps) => d.(bps := bps)
    case _ => d.(infos := Reinfo(d.infos, cmd))
  }

  function ObeyAll(d: Debugger, m: Cpu, cmds: seq<Command>): Debugger
    decreases |cmds|
  {
    if cmds == [] then d else ObeyAll(Obey(d, m, cmds[0]), m, cmds[1..])
  }

  // ---- The full status check ---------------------------------------------------------

  /** What one status check sees: the processor, the Break key, and what the socket and
      the paused interface deliver if they are given a turn. */
  datatype Check = Check(
    cpu: Cpu, key: bool, pump: bool, graphical: bool,
    served: seq<Command>, serverStopped: bool,
    keyed: seq<Command>, quit: bool, answer: int, again: seq<Command>)

  datatype Outcome = Outcome(d: Debugger, ret: int)

  function FirstShown(d: Debugger, m: Cpu): Debugger {
    if d.shown.pc < 0 then d.(shown := d.shown.(pc := m.pc)) else d
  }

  function TakeInterrupt(d: Debugger, m: Cpu): Debugger {
    var wasStepping := d.mode == Stepping || d.target.pc >= 0;
    var taken := d.(irq := d.irq.(entered := false));
    if d.irq.entered && (d.irq.breakOn || (d.irq.follow && wasStepping && d.mode != Stopped))
    then Announce(taken.(shown := Here(d, m), mode := Stopped, target := NoTarget), Interrupt)
    else taken
  }

  function TakeWatch(d: Debugger, m: Cpu): Debugger {
    if d.watchPending then Announce(d.(watchPending := false, shown := Here(d, m)), DataBreakpoint) else d
  }

  function RetireStep(d: Debugger, m: Cpu): Debugger {
    if d.mode == Stepping && d.shown != Here(d, m)
    then Announce(d.(shown := Here(d, m), mode := Stopped), StepDone)
    else d
  }

  predicate MovedOn(g: Guard, m: Cpu) {
    g.pc >= 0 && (m.pc != g.pc || m.k != g.bank || (m.clock != g.clock && !m.waiting))
  }

  function SpendGuard(d: Debugger, m: Cpu): Debugger {
    if MovedOn(d.guard, m) then d.(guard := d.guard.(pc := -1)) else d
  }

  /** The processor has genuinely come to this instruction. */
  predicate Arriving(d: Debugger, m: Cpu) {
    d.mode != Stopped && d.guard.pc < 0 && !m.waiting
  }

  predicate AtTarget(d: Debugger, m: Cpu) {
    m.pc == d.target.pc && m.k == d.target.bank
    && SelectorMatches(d.gen2, d.target.selector, m.pc, m.k, m.ram, m.rom)
  }

  function TestArrival(d: Debugger, m: Cpu): Debugger {
    if !Arriving(d, m) then d
    else
      var a := Arrive(d.gen2, d.bps, d.infos, m);
      var counted := d.(infos := a.infos);
      if a.stop || AtTarget(d, m)
      then Announce(Untargeted(counted).(shown := Here(d, m), mode := Stopped),
                    if a.stop then BreakpointHit else StepDone)
      else counted
  }

  function TestKey(d: Debugger, c: Check): Debugger {
    if c.key then BreakIn(d, c.cpu) else d
  }

  function RepairShown(d: Debugger, m: Cpu): Debugger {
    if d.shown.x16 < 0
    then d.(shown := d.shown.(x16 := CurrentX16Bank(d.gen2, d.shown.pc, d.shown.bank, m.ram, m.rom)))
    else d
  }

  /** Everything up to the arrival test, and everything that may stop the machine. */
  function BeforeArrival(d: Debugger, m: Cpu): Debugger {
    SpendGuard(RetireStep(TakeWatch(TakeInterrupt(FirstShown(d, m), m), m), m), m)
  }

  function Decide(d: Debugger, c: Check): Debugger {
    RepairShown(TestKey(TestArrival(BeforeArrival(d, c.cpu), c.cpu), c), c.cpu)
  }

  /** Halted, and the socket did not get the machine moving: the paused interface. */
  function Paused(d: Debugger, c: Check): Outcome {
    var e := ObeyAll(d, c.cpu, c.keyed);
    if c.graphical then Outcome(e, c.answer)
    else if c.quit then Outcome(e, -1)
    else if e.mode == Stopped then Outcome(e, 1)
    else Count(e, c, c.again)
  }

  /** One more running instruction; every so often the socket is served. */
  function Count(d: Debugger, c: Check, served: seq<Command>): Outcome {
    if d.tick + 1 < INTERVAL then Outcome(d.(tick := d.tick + 1), 0)
    else
      var e := ObeyAll(d.(tick := 0), c.cpu, served);
      Outcome(e, if c.serverStopped && e.mode == Stopped then 1 else 0)
  }

  /** Who has control after the decisions. */
  function Handle(d: Debugger, c: Check): Outcome {
    if d.mode == Running then Count(d, c, c.served)
    else if !c.pump then Outcome(d, if d.mode == Stopped then 1 else 0)
    else
      var e := ObeyAll(d, c.cpu, c.served);
      if e.mode != Stopped then Outcome(e, 0) else Paused(e, c)
  }

  function Full(d: Debugger, c: Check): Outcome {
    Handle(Decide(d, c), c)
  }

  // ---- The fast poll ------------------------------------------------------------------

  ghost predicate NothingToDo(d: Debugger, m: Cpu) {
    d.mode == Running && d.target.pc < 0 && d.guard.pc < 0 && !d.watchPending
    && !d.irq.entered && m.pc !in Pcs(d.bps)
  }

  /** The poll counts itself when there is nothing to do. */
  ghost function Ticked(d: Debugger, m: Cpu): Debugger {
    if NothingToDo(d, m) then d.(tick := d.tick + 1) else d
  }

  ghost predicate Skips(d: Debugger, c: Check) {
    NothingToDo(d, c.cpu) && d.tick + 1 < INTERVAL
  }

  ghost function Poll(d: Debugger, c: Check): Outcome {
    if Skips(d, c) then Outcome(Ticked(d, c.cpu), 0) else Full(Ticked(d, c.cpu), c)
  }
}
