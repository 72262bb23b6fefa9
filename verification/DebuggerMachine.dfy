/**
 The debugger itself: run mode, step target, resume guard and pending stops as fields that
 each status check and control call changes in place, over the breakpoint core.
 */
module DebuggerMachine {
  import opened Machine
  import opened PcBitmap
  import opened Breakpoints
  import opened HitCounts
  import opened DebugCore
  import opened DebuggerState

  class RunControl {
    const core: BreakpointTable
    var mode: Mode
    var shown: Shown
    var target: Target
    var targetOwner: int
    var guard: Guard
    var watchPending: bool
    var irq: Irq
    var tick: nat
    var reason: Reason
    ghost var log: seq<Reason>

    ghost predicate Valid()
      reads this, core, core.pcMap, core.pcMap.bytes, core.conds
    {
      core.Valid()
    }

    ghost function State(): Debugger
      reads this, core, core.conds
    {
      Debugger(core.gen2, mode, shown, target, targetOwner, guard, watchPending, irq, tick,
               core.bps, core.conds.Records(), reason, log)
    }

    constructor (gen2: bool)
      ensures Valid() && fresh(core) && fresh(core.pcMap) && fresh(core.pcMap.bytes) && fresh(core.conds)
      ensures State() == Debugger(gen2, Running, Shown(-1, 0, -1), NoTarget, OWNER_COUNT, Guard(-1, 0, 0),
                                  false, Irq(false, false, false), 0, core.bps, map[], NoReason, [])
    {
      core := new BreakpointTable(gen2);
      mode, shown, target, targetOwner := Running, Shown(-1, 0, -1), NoTarget, OWNER_COUNT;
      guard, watchPending, irq, tick := Guard(-1, 0, 0), false, Irq(false, false, false), 0;
      reason, log := NoReason, [];
    }

    // ---- Control calls ----------------------------------------------------------------

    method AnnounceStop(why: Reason)
      modifies this`reason, this`log
      ensures State() == Announce(old(State()), why)
    {
      reason := why;
      log := log + [why];
    }

    method ClearStepBreakPoint()
      modifies this`target, this`targetOwner
      ensures State() == Untargeted(old(State()))
    {
      targetOwner := OWNER_COUNT;
      target := NoTarget;
    }

    method ArmResumeSkip(m: Cpu)
      modifies this`guard
      ensures State() == Armed(old(State()), m)
    {
      guard := Guard(m.pc, m.k, m.clock);
    }

    method ShowHere(m: Cpu)
      modifies this`shown
      ensures State() == old(State()).(shown := Here(old(State()), m))
    {
      shown := Shown(m.pc, m.k, CurrentX16Bank(core.gen2, m.pc, m.k, m.ram, m.rom));
    }

    method Continue(m: Cpu)
      modifies this
      ensures State() == Obey(old(State()), m, Command.Continue)
    {
      ClearStepBreakPoint();
      ArmResumeSkip(m);
      mode := Running;
    }

    method StepInto(m: Cpu)
      modifies this
      ensures State() == Obey(old(State()), m, Command.StepInto)
    {
      ArmResumeSkip(m);
      mode := Stepping;
      ShowHere(m);
    }

    method RunTo(m: Cpu, pc: Addr, bank: Bank, owner: int)
      modifies this
      ensures State() == Obey(old(State()), m, Command.RunTo(pc, bank, owner))
    {
      target := Target(pc, bank, CurrentX16Bank(core.gen2, pc, bank, m.ram, m.rom));
      targetOwner := owner;
      ArmResumeSkip(m);
      mode := Running;
    }

    method StepOver(m: Cpu, opcode: Byte, owner: int)
      modifies this
      ensures State() == Obey(old(State()), m, Command.StepOver(opcode, owner))
    {
      if opcode == 0x20 || (m.is65c816 && (opcode == 0xFC || opcode == 0x22)) {
        RunTo(m, After(m.pc, if opcode == 0x22 then 4 else 3), m.k, owner);
      } else {
        StepInto(m);
      }
    }

    method BreakToDebugger(m: Cpu)
      modifies this
      ensures State() == Obey(old(State()), m, Pause)
    {
      var wasRunning := mode != Stopped;
      reason := User;
      mode := Stopped;
      ShowHere(m);
      if wasRunning {
        AnnounceStop(PauseAsked);
      }
    }

    method BreakOnWatchpoint(m: Cpu)
      modifies this
      ensures State() == Obey(old(State()), m, WatchHit)
    {
      if mode != Stopped {
        mode := Stopped;
        watchPending := true;
      }
    }

    method CancelStepFor(m: Cpu, owner: int) returns (cancelled: bool)
      modifies this
      ensures State() == Obey(old(State()), m, Command.CancelStepFor(owner))
      ensures cancelled <==> TargetOwner(old(State())) == owner
    {
      cancelled := (if target.pc < 0 then OWNER_COUNT else targetOwner) == owner;
      if cancelled {
        ClearStepBreakPoint();
      }
    }

    // ---- The status check ----------------------------------------------------------------

    method CheckInterrupt(m: Cpu)
      modifies this
      ensures State() == TakeInterrupt(old(State()), m)
    {
      var entered := irq.entered;
      irq := irq.(entered := false);
      var wasStepping := mode == Stepping || target.pc >= 0;
      if entered && (irq.breakOn || (irq.follow && wasStepping && mode != Stopped)) {
        ShowHere(m);
        mode := Stopped;
        target := NoTarget;
        AnnounceStop(Interrupt);
      }
    }

    method CheckWatch(m: Cpu)
      modifies this
      ensures State() == TakeWatch(old(State()), m)
    {
      if watchPending {
        watchPending := false;
        ShowHere(m);
        AnnounceStop(DataBreakpoint);
      }
    }

    method CheckStep(m: Cpu)
      modifies this
      ensures State() == RetireStep(old(State()), m)
    {
      if mode == Stepping
         && (shown.pc != m.pc || shown.bank != m.k
             || shown.x16 != CurrentX16Bank(core.gen2, m.pc, m.k, m.ram, m.rom)) {
        ShowHere(m);
        mode := Stopped;
        AnnounceStop(StepDone);
      }
    }

    method CheckGuard(m: Cpu)
      modifies this`guard
      ensures State() == SpendGuard(old(State()), m)
    {
      var advanced := m.clock != guard.clock && !m.waiting;
      if guard.pc >= 0 && (m.pc != guard.pc || m.k != guard.bank || advanced) {
        guard := guard.(pc := -1);
      }
    }

    method CheckArrival(m: Cpu)
      requires Valid()
      modifies this, core.conds
      ensures Valid() && State() == TestArrival(old(State()), m)
    {
      if mode != Stopped && guard.pc < 0 && !m.waiting {
        var viaUser := core.OnArrival(m);
        var viaStep := !viaUser && m.pc == target.pc && m.k == target.bank
          && SelectorMatches(core.gen2, target.selector, m.pc, m.k, m.ram, m.rom);
        if viaUser || viaStep {
          ShowHere(m);
          ClearStepBreakPoint();
          mode := Stopped;
          AnnounceStop(if viaStep then StepDone else BreakpointHit);
        }
      }
    }

    /** The stops that are already settled when the check begins. */
    method CheckPending(m: Cpu)
      modifies this
      ensures State() == BeforeArrival(old(State()), m)
    {
      if shown.pc < 0 {
        shown := shown.(pc := m.pc);
      }
      CheckInterrupt(m);
      CheckWatch(m);
      CheckStep(m);
      CheckGuard(m);
    }

    method CheckKey(c: Check)
      modifies this
      ensures State() == RepairShown(TestKey(old(State()), c), c.cpu)
    {
      if c.key {
        BreakToDebugger(c.cpu);
      }
      if shown.x16 < 0 {
        shown := shown.(x16 := CurrentX16Bank(core.gen2, shown.pc, shown.bank, c.cpu.ram, c.cpu.rom));
      }
    }

    /** Every decision of the full check; who has control afterwards is `Handle`. */
    method DecideStop(c: Check)
      requires Valid()
      modifies this, core.conds
      ensures Valid() && State() == Decide(old(State()), c)
    {
      CheckPending(c.cpu);
      CheckArrival(c.cpu);
      CheckKey(c);
    }

    /** The test the fast path makes: the state and one bit of the map. */
    method NothingToDoAt(m: Cpu) returns (idle: bool)
      requires Valid()
      ensures idle <==> NothingToDo(State(), m)
    {
      idle := mode == Running && target.pc < 0 && guard.pc < 0 && !watchPending && !irq.entered
              && !core.pcMap.Has(m.pc);
    }

    /** Skip, or decide; `Poll` is then finished by `Handle`. */
    method PollStatus(c: Check) returns (skipped: bool)
      requires Valid()
      modifies this, core.conds
      ensures Valid() && skipped == old(Skips(State(), c))
      ensures skipped ==> State() == Poll(old(State()), c).d
      ensures !skipped ==> Handle(State(), c) == Poll(old(State()), c)
    {
      var idle := NothingToDoAt(c.cpu);
      ghost var was := State();
      if idle {
        tick := tick + 1;
      }
      assert State() == Ticked(was, c.cpu);
      if idle && tick < INTERVAL {
        return true;
      }
      DecideStop(c);
      skipped := false;
    }
  }
}
