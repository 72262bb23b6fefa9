/**
 What stops the machine and what is announced, told from what the user asked for: one full
 status check, and each command followed by the check it is for.
 */
module DebuggerStops {
  import opened Machine
  import opened Breakpoints
  import opened HitCounts
  import opened DebugCore
  import opened BreakpointTheorems
  import opened DebuggerState
  import opened FastPath
  import opened HitHistory

  // ---- What there is to stop for ---------------------------------------------------------

  /** Is the program counter in a window whose memory a bank register chooses? */
  predicate Windowed(gen2: bool, m: Cpu) {
    m.pc >= 0xA000 && !(gen2 && m.k != 0)
  }

  /** Where the processor is, the bank of its window included. */
  function Place(gen2: bool, m: Cpu): Shown {
    Shown(m.pc, m.k, if !Windowed(gen2, m) then -1 else if m.pc < 0xC000 then m.ram else m.rom)
  }

  /** What the display shows; a display that has shown nothing yet follows the processor. */
  function Displayed(d: Debugger, m: Cpu): Shown {
    if d.shown.pc < 0 then d.shown.(pc := m.pc) else d.shown
  }

  /** An interrupt has been entered that is to be broken on, or followed out of a step. */
  predicate Interrupted(d: Debugger) {
    d.irq.entered
    && (d.irq.breakOn || (d.irq.follow && d.mode != Stopped && (d.mode == Stepping || d.target.pc >= 0)))
  }

  /** A single step has moved the processor away from what the display shows. */
  predicate SteppedOn(d: Debugger, m: Cpu) {
    d.mode == Stepping && !Interrupted(d) && !d.watchPending && Displayed(d, m) != Place(d.gen2, m)
  }

  predicate SomeFires(d: Debugger, m: Cpu) {
    exists i :: 0 <= i < |d.bps| && Fires(d.gen2, d.bps[i], d.infos, m)
  }

  /** The processor is where a step or a run is to end, in its bank where that matters. */
  predicate OnTarget(d: Debugger, m: Cpu) {
    d.target.pc == m.pc && d.target.bank == m.k
    && (!Windowed(d.gen2, m) || d.target.selector == -1 || d.target.selector == Place(d.gen2, m).x16)
  }

  /** A genuine arrival at a breakpoint that fires, or at the target. */
  ghost predicate Reached(d: Debugger, h: seq<Event>, c: Check) {
    Genuine(d, h, c) && (SomeFires(d, c.cpu) || OnTarget(d, c.cpu))
  }

  ghost predicate Halts(d: Debugger, h: seq<Event>, c: Check) {
    d.mode == Stopped || Interrupted(d) || SteppedOn(d, c.cpu) || Reached(d, h, c) || c.key
  }

  function Said(said: bool, why: Reason): seq<Reason> {
    if said then [why] else []
  }

  // ---- The parts of a check ------------------------------------------------------------------

  lemma PlaceIs(d: Debugger, m: Cpu)
    ensures Here(d, m) == Place(d.gen2, m)
  {
  }

  /** Nothing but these has changed from `d` to `e`. */
  ghost predicate Became(e: Debugger, d: Debugger, mode: Mode, target: Target, log: seq<Reason>) {
    e.infos == d.infos && e.bps == d.bps && e.gen2 == d.gen2
    && e.mode == mode && e.target == target && e.log == log
  }

  lemma InterruptPart(d: Debugger, m: Cpu)
    ensures var e := TakeInterrupt(FirstShown(d, m), m);
            && Became(e, d, if Interrupted(d) then Stopped else d.mode,
                      if Interrupted(d) then NoTarget else d.target, d.log + Said(Interrupted(d), Interrupt))
            && e.guard == d.guard && e.watchPending == d.watchPending && !e.irq.entered
            && e.shown == if Interrupted(d) then Place(d.gen2, m) else Displayed(d, m)
  {
  }

  lemma StepPart(d: Debugger, m: Cpu)
    ensures var e := RetireStep(TakeWatch(d, m), m);
            var stepped := d.mode == Stepping && !d.watchPending && d.shown != Place(d.gen2, m);
            && Became(e, d, if stepped then Stopped else d.mode, d.target,
                      d.log + Said(d.watchPending, DataBreakpoint) + Said(stepped, StepDone))
            && e.guard == d.guard && !e.watchPending && e.irq == d.irq
            && e.shown == if d.watchPending || stepped then Place(d.gen2, m) else d.shown
  {
  }

  lemma GuardPart(d: Debugger, m: Cpu)
    ensures var e := SpendGuard(d, m); e == d.(guard := e.guard)
  {
  }

  /** What has happened by the arrival test. */
  lemma EarlyPart(d: Debugger, m: Cpu)
    ensures var e := BeforeArrival(d, m);
            && Became(e, d, if Interrupted(d) || SteppedOn(d, m) then Stopped else d.mode,
                      if Interrupted(d) then NoTarget else d.target,
                      d.log + Said(Interrupted(d), Interrupt) + Said(d.watchPending, DataBreakpoint)
                      + Said(SteppedOn(d, m), StepDone))
            && !e.watchPending && !e.irq.entered
            && e.shown == if Interrupted(d) || d.watchPending || SteppedOn(d, m) then Place(d.gen2, m)
                          else Displayed(d, m)
  {
    InterruptPart(d, m);
    var i := TakeInterrupt(FirstShown(d, m), m);
    StepPart(i, m);
    GuardPart(RetireStep(TakeWatch(i, m), m), m);
  }

  lemma TargetIs(d: Debugger, m: Cpu)
    ensures AtTarget(d, m) <==> OnTarget(d, m)
  {
  }

  lemma FiringIs(gen2: bool, bps: seq<Breakpoint>, infos: map<BpKey, Info>, m: Cpu)
    requires Unique(bps)
    ensures Arrive(gen2, bps, infos, m).stop <==> exists i :: 0 <= i < |bps| && Fires(gen2, bps[i], infos, m)
  {
    ArriveStops(gen2, bps, infos, m);
    var i := FirstFiring(gen2, bps, infos, m);
    if i < |bps| {
      assert Fires(gen2, bps[i], infos, m);
    }
  }

  lemma ArrivalPart(d: Debugger, m: Cpu)
    requires Unique(d.bps)
    ensures var e := TestArrival(d, m);
            var halts := Arriving(d, m) && (SomeFires(d, m) || OnTarget(d, m));
            && e.mode == (if halts then Stopped else d.mode) && e.target == (if halts then NoTarget else d.target)
            && e.log == d.log + Said(halts, if SomeFires(d, m) then BreakpointHit else StepDone)
            && e.bps == d.bps && e.gen2 == d.gen2 && e.watchPending == d.watchPending && e.irq == d.irq
            && e.shown == if halts then Place(d.gen2, m) else d.shown
  {
    TargetIs(d, m);
    PlaceIs(d, m);
    FiringIs(d.gen2, d.bps, d.infos, m);
  }

  lemma KeyPart(d: Debugger, c: Check)
    ensures var e := RepairShown(TestKey(d, c), c.cpu);
            && e.mode == (if c.key then Stopped else d.mode) && e.target == d.target
            && e.log == d.log + Said(c.key && d.mode != Stopped, PauseAsked)
            && e.watchPending == d.watchPending && e.irq == d.irq
            && (c.key || d.shown == Place(d.gen2, c.cpu) ==> e.shown == Place(d.gen2, c.cpu))
            && e.shown.pc == (if c.key then c.cpu.pc else d.shown.pc)
  {
    PlaceIs(d, c.cpu);
  }

  // ---- One check ---------------------------------------------------------------------------

  /**
   A check halts a machine exactly for an interrupt to be broken on, a step that has moved, a genuine
   arrival at a firing breakpoint or at the target, or the Break key. Each is announced, in that
   order, and once halted the target is gone if it was reached or an interrupt came instead.
   */
  lemma CheckStops(d: Debugger, h: seq<Event>, c: Check)
    requires Unique(d.bps) && Tells(d.guard, h)
    ensures var e, m := Decide(d, c), c.cpu;
            var early := d.mode == Stopped || Interrupted(d) || SteppedOn(d, m);
            && e.mode == (if Halts(d, h, c) then Stopped else d.mode)
            && e.target == (if Interrupted(d) || Reached(d, h, c) then NoTarget else d.target)
            && e.log == d.log + Said(Interrupted(d), Interrupt) + Said(d.watchPending, DataBreakpoint)
                        + Said(SteppedOn(d, m), StepDone)
                        + Said(Reached(d, h, c), if SomeFires(d, m) then BreakpointHit else StepDone)
                        + Said(c.key && !early && !Reached(d, h, c), PauseAsked)
            && !e.watchPending && !e.irq.entered
            && (Genuine(d, h, c) <==> !early && Left(h + [Looked(m)]) && !m.waiting)
  {
    var m := c.cpu;
    EarlyPart(d, m);
    var e := BeforeArrival(d, m);
    ArrivingIsGenuine(d, h, c);
    ArrivalPart(e, m);
    KeyPart(TestArrival(e, m), c);
  }

  /** A machine that a check has halted, or that hit a watchpoint, is shown where it is. */
  lemma CheckShows(d: Debugger, h: seq<Event>, c: Check)
    requires Unique(d.bps) && Tells(d.guard, h)
    requires (d.mode != Stopped && Halts(d, h, c)) || d.watchPending
    ensures Decide(d, c).shown == Place(d.gen2, c.cpu)
  {
    var m := c.cpu;
    EarlyPart(d, m);
    var e := BeforeArrival(d, m);
    ArrivingIsGenuine(d, h, c);
    ArrivalPart(e, m);
    KeyPart(TestArrival(e, m), c);
  }

  /** The display's bank is filled in where it is missing. */
  function Repaired(gen2: bool, s: Shown, m: Cpu): Shown {
    if s.x16 >= 0 || s.pc < 0xA000 || (gen2 && s.bank != 0) then s
    else s.(x16 := if s.pc < 0xC000 then m.ram else m.rom)
  }

  lemma RepairIs(d: Debugger, m: Cpu)
    requires d.shown.x16 >= -1
    ensures RepairShown(d, m) == d.(shown := Repaired(d.gen2, d.shown, m))
  {
  }

  /** Otherwise the display stays, its bank filled in where it is missing. */
  lemma DisplayStays(d: Debugger, h: seq<Event>, c: Check)
    requires Unique(d.bps) && Tells(d.guard, h) && d.shown.x16 >= -1
    requires !d.watchPending && !c.key && !Interrupted(d) && !SteppedOn(d, c.cpu) && !Reached(d, h, c)
    ensures Decide(d, c).shown == Repaired(d.gen2, Displayed(d, c.cpu), c.cpu)
  {
    var m := c.cpu;
    EarlyPart(d, m);
    var e := BeforeArrival(d, m);
    ArrivingIsGenuine(d, h, c);
    ArrivalPart(e, m);
    RepairIs(TestArrival(e, m), m);
  }

  // ---- Who goes on after the check --------------------------------------------------------------

  /** A running machine runs on, and the socket is served at every thousandth check. */
  lemma RunningGoesOn(d: Debugger, c: Check)
    requires Decide(d, c).mode == Running
    ensures var e, o := Decide(d, c), Full(d, c);
            if e.tick + 1 < 1000 then o == Outcome(e.(tick := e.tick + 1), 0)
            else o.d == ObeyAll(e.(tick := 0), c.cpu, c.served)
                 && o.ret == if c.serverStopped && o.d.mode == Stopped then 1 else 0
  {
  }

  /** A machine in the middle of a step goes on with it unless the socket halts it. */
  lemma SteppingGoesOn(d: Debugger, c: Check)
    requires Decide(d, c).mode == Stepping && (c.pump ==> ObeyAll(Decide(d, c), c.cpu, c.served).mode != Stopped)
    ensures var e := Decide(d, c);
            Full(d, c) == Outcome(if c.pump then ObeyAll(e, c.cpu, c.served) else e, 0)
  {
  }

  predicate Starts(cmd: Command) {
    cmd.Continue? || cmd.StepInto? || cmd.StepOver? || cmd.StepOut? || cmd.RunTo? || cmd.ServerRuns?
  }

  predicate NoneStarts(cmds: seq<Command>) {
    forall i :: 0 <= i < |cmds| ==> !Starts(cmds[i])
  }

  lemma {:induction false} StaysHalted(d: Debugger, m: Cpu, cmds: seq<Command>)
    requires d.mode == Stopped && NoneStarts(cmds)
    ensures ObeyAll(d, m, cmds).mode == Stopped
    decreases |cmds|
  {
    if cmds != [] {
      StaysHalted(Obey(d, m, cmds[0]), m, cmds[1..]);
    }
  }

  /** A halted machine runs no instruction until somebody starts it: the caller is told to wait, to
      quit, or what the graphical interface answers. */
  lemma HaltedWaits(d: Debugger, c: Check)
    requires Decide(d, c).mode == Stopped && NoneStarts(c.served) && NoneStarts(c.keyed)
    ensures var o := Full(d, c);
            o.d.mode == Stopped
            && o.ret == if c.pump && c.graphical then c.answer else if c.pump && c.quit then -1 else 1
  {
    var e := Decide(d, c);
    StaysHalted(e, c.cpu, c.served);
    StaysHalted(ObeyAll(e, c.cpu, c.served), c.cpu, c.keyed);
  }

  // ---- What the commands are for -----------------------------------------------------------------

  /** What is on record once the command has been given, and nothing else is pending. */
  ghost predicate Given(s: Debugger, d: Debugger, m: Cpu, h: seq<Event>, cmd: Command) {
    s == Obey(d, m, cmd) && Tells(s.guard, h + [Resumed(m)]) && Unique(s.bps)
    && !s.irq.entered && !s.watchPending
  }

  lemma GiveCommand(d: Debugger, m: Cpu, h: seq<Event>, cmd: Command) returns (s: Debugger)
    requires Starts(cmd) && !cmd.ServerRuns? && Unique(d.bps) && !d.irq.entered && !d.watchPending
    ensures Given(s, d, m, h, cmd)
  {
    s := Obey(d, m, cmd);
    ObeyGuard(d, m, cmd);
    ResumedMatches(h, m);
    ObeyTable(d, m, cmd);
  }

  /** Continued, the machine halts at the next genuine arrival at a firing breakpoint, or for the key. */
  lemma ContinueHalts(d: Debugger, m: Cpu, h: seq<Event>, s: Debugger, c: Check)
    requires Given(s, d, m, h, Continue)
    ensures Decide(s, c).mode == Stopped <==>
              c.key || (SomeFires(s, c.cpu) && Elsewhere(m, c.cpu) && !c.cpu.waiting)
    ensures s.target.pc < 0 && s.mode == Running && s.log == d.log && s.bps == d.bps && s.infos == d.infos
  {
    CheckStops(s, h + [Resumed(m)], c);
    GenuineExactly(s, h, m, c);
  }

  lemma StepGiven(d: Debugger, m: Cpu)
    ensures var s := Obey(d, m, StepInto);
            s.mode == Stepping && s.shown == Place(d.gen2, m) && s.log == d.log && s.gen2 == d.gen2
  {
    PlaceIs(d, m);
  }

  /** A single step halts once the processor is in another place, and announces it. */
  lemma StepHalts(d: Debugger, m: Cpu, h: seq<Event>, s: Debugger, c: Check)
    requires Given(s, d, m, h, StepInto) && Place(d.gen2, c.cpu) != Place(d.gen2, m)
    ensures Decide(s, c).mode == Stopped && Decide(s, c).log == d.log + [StepDone]
  {
    StepGiven(d, m);
    CheckStops(s, h + [Resumed(m)], c);
  }

  /** Until then it goes on. */
  lemma StepGoesOn(d: Debugger, m: Cpu, h: seq<Event>, s: Debugger, c: Check)
    requires Given(s, d, m, h, StepInto) && !Elsewhere(m, c.cpu) && Place(d.gen2, c.cpu) == Place(d.gen2, m) && !c.key
    ensures Decide(s, c).mode == Stepping && Decide(s, c).log == d.log
  {
    var g := h + [Resumed(m)];
    StepGiven(d, m);
    CheckStops(s, g, c);
    ResumedMatches(h, m);
    assert LastResume(g, |h|);
    LookedLeft(g, c.cpu, |h|);
  }

  /** The processor has come to `pc` in `bank`, and to the window bank there was when it was set off. */
  predicate CameTo(gen2: bool, m: Cpu, pc: int, bank: Bank, now: Cpu) {
    now.pc == pc && now.k == bank
    && (Windowed(gen2, now) ==> if now.pc < 0xC000 then now.ram == m.ram else now.rom == m.rom)
  }

  /** A machine with a target halts there, or for a breakpoint or the key on the way. */
  ghost predicate HaltsIf(s: Debugger, m: Cpu, here: bool, c: Check) {
    var moved := Elsewhere(m, c.cpu) && !c.cpu.waiting;
    var e := Decide(s, c);
    && (e.mode == Stopped <==> c.key || (moved && (here || SomeFires(s, c.cpu))))
    && (moved && (here || SomeFires(s, c.cpu)) ==>
          e.target.pc < 0 && e.log == s.log + [if SomeFires(s, c.cpu) then BreakpointHit else StepDone])
    && (!moved || (!here && !SomeFires(s, c.cpu)) ==> e.target == s.target)
  }

  lemma PendingHalts(s: Debugger, h: seq<Event>, m: Cpu, c: Check)
    requires s.mode == Running && !s.irq.entered && !s.watchPending && Unique(s.bps)
    requires Tells(s.guard, h + [Resumed(m)])
    ensures HaltsIf(s, m, OnTarget(s, c.cpu), c)
  {
    CheckStops(s, h + [Resumed(m)], c);
    GenuineExactly(s, h, m, c);
  }

  /** The machine was set off towards `pc`, nothing else being announced yet, and halts there. */
  ghost predicate HaltsAt(d: Debugger, s: Debugger, m: Cpu, pc: int, bank: Bank, c: Check) {
    && s.mode == Running && s.log == d.log && s.target.pc == pc
    && HaltsIf(s, m, CameTo(d.gen2, m, pc, bank, c.cpu), c)
  }

  lemma RunGiven(d: Debugger, m: Cpu, pc: Addr, bank: Bank, owner: int, now: Cpu)
    ensures var s := RunUntil(d, m, pc, bank, owner);
            && s.mode == Running && s.log == d.log && s.gen2 == d.gen2 && s.target.pc == pc
            && (OnTarget(s, now) <==> CameTo(d.gen2, m, pc, bank, now))
  {
  }

  lemma TargetHalts(d: Debugger, m: Cpu, h: seq<Event>, s: Debugger, cmd: Command,
                    pc: Addr, bank: Bank, owner: int, c: Check)
    requires Given(s, d, m, h, cmd) && s == RunUntil(d, m, pc, bank, owner)
    ensures HaltsAt(d, s, m, pc, bank, c)
  {
    RunGiven(d, m, pc, bank, owner, c.cpu);
    PendingHalts(s, h, m, c);
  }

  lemma RunToHalts(d: Debugger, m: Cpu, h: seq<Event>, s: Debugger, c: Check, pc: Addr, bank: Bank, owner: int)
    requires Given(s, d, m, h, RunTo(pc, bank, owner))
    ensures HaltsAt(d, s, m, pc, bank, c)
  {
    TargetHalts(d, m, h, s, RunTo(pc, bank, owner), pc, bank, owner, c);
  }

  /** The bytes of a call instruction, or 0: JSR, and on the 65C816 also JSR (a,X) and JSL. */
  function CallBytes(opcode: Byte, is65c816: bool): nat {
    match opcode
    case 0x20 => 3
    case 0xFC => if is65c816 then 3 else 0
    case 0x22 => if is65c816 then 4 else 0
    case _ => 0
  }

  /** Stepping over a call halts at its return; over anything else it is a single step. */
  lemma StepOverHalts(d: Debugger, m: Cpu, h: seq<Event>, s: Debugger, c: Check, opcode: Byte, owner: int)
    requires Given(s, d, m, h, StepOver(opcode, owner))
    ensures var n := CallBytes(opcode, m.is65c816);
            if n > 0 then HaltsAt(d, s, m, After(m.pc, n), m.k, c) else s == Obey(d, m, StepInto)
  {
    var n := CallBytes(opcode, m.is65c816);
    if n > 0 {
      TargetHalts(d, m, h, s, StepOver(opcode, owner), After(m.pc, n), m.k, owner, c);
    }
  }

  /** Stepping out halts at the return address of the frame; with no frame it is a single step. */
  lemma StepOutHalts(d: Debugger, m: Cpu, h: seq<Event>, s: Debugger, c: Check,
                     frame: bool, ret: Addr, bank: Bank, owner: int)
    requires Given(s, d, m, h, StepOut(frame, ret, bank, owner))
    ensures if frame then HaltsAt(d, s, m, ret, bank, c) else s == Obey(d, m, StepInto)
  {
    if frame {
      TargetHalts(d, m, h, s, StepOut(frame, ret, bank, owner), ret, bank, owner, c);
    }
  }

  /** Only the front end that asked for a run to somewhere takes it back; the machine runs on. */
  lemma CancelRetracts(d: Debugger, m: Cpu, pc: Addr, bank: Bank, owner: int, other: int)
    ensures var s := Obey(d, m, RunTo(pc, bank, owner));
            && Obey(s, m, CancelStepFor(other)).target == (if other == owner then NoTarget else s.target)
            && Obey(s, m, CancelStep).target == NoTarget
            && Obey(s, m, CancelStepFor(other)).mode == Obey(s, m, CancelStep).mode == Running
            && s.target.pc == pc
  {
  }

  /** A pause halts the machine where it is and is announced only if it was not halted already. */
  lemma PauseHalts(d: Debugger, m: Cpu)
    ensures var s := Obey(d, m, Pause);
            && s.mode == Stopped && s.shown == Place(d.gen2, m) && s.target == d.target
            && s.log == d.log + Said(d.mode != Stopped, PauseAsked)
  {
    PlaceIs(d, m);
  }

  /** A watched store halts a machine that is not halted; the next check announces it and shows it. */
  lemma WatchHalts(d: Debugger, m: Cpu, h: seq<Event>, c: Check)
    requires Unique(d.bps) && Tells(d.guard, h) && d.mode != Stopped && !d.irq.entered && !c.key
    ensures var e := Decide(Obey(d, m, WatchHit), c);
            e.mode == Stopped && e.log == d.log + [DataBreakpoint] && e.shown == Place(d.gen2, c.cpu)
    ensures d.mode == Stopped ==> Obey(d, m, WatchHit) == d
  {
    CheckStops(Obey(d, m, WatchHit), h, c);
    CheckShows(Obey(d, m, WatchHit), h, c);
  }

  lemma InterruptEntering(d: Debugger, m: Cpu, on: bool, follow: bool)
    ensures var s := Obey(Obey(Obey(d, m, BreakOnInterrupt(on)), m, FollowInterrupts(follow)), m, InterruptEntered);
            s == d.(irq := Irq(true, on, follow))
  {
  }

  /** An interrupt entered halts the machine at the next check if it is to be broken on, or to be
      followed and a step is pending. */
  lemma InterruptHalts(d: Debugger, h: seq<Event>, c: Check, on: bool, follow: bool)
    requires Unique(d.bps) && Tells(d.guard, h) && d.mode == Running && !d.watchPending
    requires on || (follow && d.target.pc >= 0)
    ensures var e := Decide(d.(irq := Irq(true, on, follow)), c);
            e.mode == Stopped && e.log == d.log + [Interrupt] && e.target.pc < 0
  {
    CheckStops(d.(irq := Irq(true, on, follow)), h, c);
  }

  lemma Unnoticed(d: Debugger, m: Cpu)
    requires d.irq.entered && !Interrupted(d)
    ensures var quiet := d.(irq := d.irq.(entered := false));
            TakeInterrupt(FirstShown(d, m), m) == TakeInterrupt(FirstShown(quiet, m), m)
  {
  }

  /** Otherwise it is as if it had not been entered. */
  lemma InterruptPasses(d: Debugger, c: Check)
    requires d.irq.entered && !Interrupted(d)
    ensures Decide(d, c) == Decide(d.(irq := d.irq.(entered := false)), c)
  {
    Unnoticed(d, c.cpu);
  }

  /** What the commands about conditions and counts do to the record of a key; others leave it alone. */
  lemma RecordsFollow(d: Debugger, m: Cpu, cmd: Command, key: BpKey)
    ensures var i, j := InfoOf(d.infos, key), InfoOf(Obey(d, m, cmd).infos, key);
            match cmd
            case SetCondition(k, operand, at, op, value) =>
              j == if k == key then Info(true, operand, at, op, value, i.ignoring, i.hits) else i
            case ClearCondition(k) => j == if k == key then i.(hasCond := false) else i
            case SetIgnore(k, n) => j == if k == key then i.(ignoring := n) else i
            case ResetHits(k) => j == if k == key then i.(hits := 0) else i
            case Forget(k) => j == if k == key then Info(false, 0, 0, 0, 0, 0, 0) else i
            case ForgetAll => j == Info(false, 0, 0, 0, 0, 0, 0)
            case _ => j == i
  {
    ObeyInfos(d, m, cmd);
  }

  /** The commands that set the machine going or halt it by themselves, and that replace the table. */
  lemma OthersDo(d: Debugger, m: Cpu, bps: seq<Breakpoint>)
    ensures Obey(d, m, ServerRuns) == d.(mode := Running) && Obey(d, m, ServerStops) == d.(mode := Stopped)
    ensures Obey(d, m, Retable(bps)) == d.(bps := bps)
  {
  }

  // ---- The fast poll is fast --------------------------------------------------------------------

  /** Running with nothing pending. */
  predicate Quiet(d: Debugger) {
    d.mode == Running && d.target.pc < 0 && d.guard.pc < 0 && !d.watchPending && !d.irq.entered
  }

  /** No commands, and no entry at the address, in the sixteen bits the bitmap has. */
  predicate Undisturbed(d: Debugger, r: Round) {
    r.between == [] && forall i :: 0 <= i < |d.bps| ==> Wrap(d.bps[i].key.pc) != r.check.cpu.pc
  }

  /** Away from any entry every poll is skipped, except the thousandth. */
  lemma {:induction false} QuietRunSkips(d: Debugger, rounds: seq<Round>)
    requires Quiet(d) && rounds != [] && forall i :: 0 <= i < |rounds| ==> Undisturbed(d, rounds[i])
    ensures AllSkipped(d, rounds) <==> d.tick + |rounds| < 1000
    decreases |rounds|
  {
    var c := rounds[0].check;
    assert Undisturbed(d, rounds[0]);
    assert Skips(d, c) <==> d.tick + 1 < 1000;
    if Skips(d, c) && |rounds| > 1 {
      var next := Poll(d, c).d;
      assert next == d.(tick := d.tick + 1);
      assert forall i :: 0 <= i < |rounds[1..]| ==> rounds[1..][i] == rounds[i + 1];
      QuietRunSkips(next, rounds[1..]);
    }
  }
}
