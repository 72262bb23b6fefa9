/**
 The fast poll against the full check. Over any run the two agree on everything but the
 displayed location, exactly as long as the Break key is not down at a skipped poll.
 */
module FastPath {
  import opened Machine
  import opened Breakpoints
  import opened HitCounts
  import opened DebugCore
  import opened DebuggerState

  /** `f` has been polled fast, `s` in full: same run state, step target, resume guard,
      breakpoints, counts and announcements. What the display shows may lag, except while
      a step is in progress; a tick the Break key left at the interval is still due next. */
  ghost predicate Agree(f: Debugger, s: Debugger) {
    f.(shown := s.shown, tick := s.tick) == s
    && (s.mode == Stepping ==> f.shown == s.shown)
    && (f.tick == s.tick || (f.tick >= INTERVAL && s.tick == INTERVAL - 1))
    && s.tick < INTERVAL
  }

  // ---- Commands and decisions keep the agreement ------------------------------------

  lemma ResumeAgrees(f: Debugger, s: Debugger, m: Cpu, pc: Addr, bank: Bank, owner: int)
    requires Agree(f, s)
    ensures Agree(RunUntil(f, m, pc, bank, owner), RunUntil(s, m, pc, bank, owner))
    ensures Agree(StepOne(f, m), StepOne(s, m))
  {
  }

  lemma BreakInAgrees(f: Debugger, s: Debugger, m: Cpu)
    requires Agree(f, s)
    ensures Agree(BreakIn(f, m), BreakIn(s, m))
  {
  }

  predicate Resumes(cmd: Command) {
    cmd.Continue? || cmd.StepInto? || cmd.StepOver? || cmd.StepOut? || cmd.RunTo?
  }

  lemma ObeyResumeAgrees(f: Debugger, s: Debugger, m: Cpu, cmd: Command)
    requires Agree(f, s) && Resumes(cmd)
    ensures Agree(Obey(f, m, cmd), Obey(s, m, cmd))
  {
    if cmd.StepOver? {
      ResumeAgrees(f, s, m, After(m.pc, if cmd.opcode == 0x22 then 4 else 3), m.k, cmd.owner);
    } else if cmd.StepOut? {
      ResumeAgrees(f, s, m, cmd.ret, cmd.bank, cmd.owner);
    } else if cmd.RunTo? {
      ResumeAgrees(f, s, m, cmd.pc, cmd.bank, cmd.owner);
    }
  }

  lemma ObeyAgrees(f: Debugger, s: Debugger, m: Cpu, cmd: Command)
    requires Agree(f, s)
    ensures Agree(Obey(f, m, cmd), Obey(s, m, cmd))
  {
    if Resumes(cmd) {
      ObeyResumeAgrees(f, s, m, cmd);
    } else if cmd.Pause? {
      BreakInAgrees(f, s, m);
    }
  }

  lemma {:induction false} ObeyAllAgrees(f: Debugger, s: Debugger, m: Cpu, cmds: seq<Command>)
    requires Agree(f, s)
    ensures Agree(ObeyAll(f, m, cmds), ObeyAll(s, m, cmds))
    decreases |cmds|
  {
    if cmds != [] {
      ObeyAgrees(f, s, m, cmds[0]);
      ObeyAllAgrees(Obey(f, m, cmds[0]), Obey(s, m, cmds[0]), m, cmds[1..]);
    }
  }

  lemma InterruptAgrees(f: Debugger, s: Debugger, m: Cpu)
    requires Agree(f, s)
    ensures Agree(TakeInterrupt(f, m), TakeInterrupt(s, m))
  {
  }

  lemma WatchAgrees(f: Debugger, s: Debugger, m: Cpu)
    requires Agree(f, s)
    ensures Agree(TakeWatch(f, m), TakeWatch(s, m))
  {
  }

  lemma RetireAgrees(f: Debugger, s: Debugger, m: Cpu)
    requires Agree(f, s)
    ensures Agree(SpendGuard(RetireStep(f, m), m), SpendGuard(RetireStep(s, m), m))
  {
  }

  lemma EarlyAgrees(f: Debugger, s: Debugger, m: Cpu)
    requires Agree(f, s)
    ensures Agree(BeforeArrival(f, m), BeforeArrival(s, m))
  {
    var f1, s1 := FirstShown(f, m), FirstShown(s, m);
    InterruptAgrees(f1, s1, m);
    var f2, s2 := TakeInterrupt(f1, m), TakeInterrupt(s1, m);
    WatchAgrees(f2, s2, m);
    RetireAgrees(TakeWatch(f2, m), TakeWatch(s2, m), m);
  }

  lemma HaltAgrees(f: Debugger, s: Debugger, m: Cpu, why: Reason)
    requires Agree(f, s)
    ensures Agree(Announce(Untargeted(f).(shown := Here(f, m), mode := Stopped), why),
                  Announce(Untargeted(s).(shown := Here(s, m), mode := Stopped), why))
  {
  }

  lemma ArrivalAgrees(f: Debugger, s: Debugger, m: Cpu)
    requires Agree(f, s)
    ensures Agree(TestArrival(f, m), TestArrival(s, m))
  {
    if Arriving(s, m) {
      var a := Arrive(s.gen2, s.bps, s.infos, m);
      if a.stop || AtTarget(s, m) {
        HaltAgrees(f.(infos := a.infos), s.(infos := a.infos), m, if a.stop then BreakpointHit else StepDone);
      }
    }
  }

  lemma LateAgrees(f: Debugger, s: Debugger, c: Check)
    requires Agree(f, s)
    ensures Agree(RepairShown(TestKey(f, c), c.cpu), RepairShown(TestKey(s, c), c.cpu))
  {
  }

  lemma DecideAgrees(f: Debugger, s: Debugger, c: Check)
    requires Agree(f, s)
    ensures Agree(Decide(f, c), Decide(s, c))
  {
    EarlyAgrees(f, s, c.cpu);
    ArrivalAgrees(BeforeArrival(f, c.cpu), BeforeArrival(s, c.cpu), c.cpu);
    LateAgrees(TestArrival(BeforeArrival(f, c.cpu), c.cpu), TestArrival(BeforeArrival(s, c.cpu), c.cpu), c);
  }

  lemma CountAgrees(f: Debugger, s: Debugger, c: Check, served: seq<Command>)
    requires Agree(f, s)
    ensures Agree(Count(f, c, served).d, Count(s, c, served).d)
    ensures Count(f, c, served).ret == Count(s, c, served).ret
  {
    if s.tick + 1 >= INTERVAL {
      ObeyAllAgrees(f.(tick := 0), s.(tick := 0), c.cpu, served);
    }
  }

  lemma HandleAgrees(f: Debugger, s: Debugger, c: Check)
    requires Agree(f, s)
    ensures Agree(Handle(f, c).d, Handle(s, c).d) && Handle(f, c).ret == Handle(s, c).ret
  {
    if s.mode == Running {
      CountAgrees(f, s, c, c.served);
    } else if c.pump {
      ObeyAllAgrees(f, s, c.cpu, c.served);
      var f1, s1 := ObeyAll(f, c.cpu, c.served), ObeyAll(s, c.cpu, c.served);
      if s1.mode == Stopped {
        ObeyAllAgrees(f1, s1, c.cpu, c.keyed);
        CountAgrees(ObeyAll(f1, c.cpu, c.keyed), ObeyAll(s1, c.cpu, c.keyed), c, c.again);
      }
    }
  }

  lemma FullAgrees(f: Debugger, s: Debugger, c: Check)
    requires Agree(f, s)
    ensures Agree(Full(f, c).d, Full(s, c).d) && Full(f, c).ret == Full(s, c).ret
  {
    DecideAgrees(f, s, c);
    HandleAgrees(Decide(f, c), Decide(s, c), c);
  }

  // ---- A skipped check -------------------------------------------------------------

  /** No entry at this address: nothing is counted and nothing stops. */
  lemma {:induction false} NothingHere(gen2: bool, bps: seq<Breakpoint>, infos: map<BpKey, Info>, m: Cpu)
    requires m.pc !in Pcs(bps)
    ensures Arrive(gen2, bps, infos, m) == Arrival(infos, false)
  {
    if bps != [] {
      assert bps[0] in bps;
      assert Wrap(bps[0].key.pc) in Pcs(bps);
      forall p | p in Pcs(bps[1..])
        ensures p in Pcs(bps)
      {
      }
      NothingHere(gen2, bps[1..], infos, m);
    }
  }

  /** With nothing to do, the decisions change only what the display shows, unless the Break key is down. */
  lemma NothingDecided(s: Debugger, m: Cpu)
    requires NothingToDo(s, m)
    ensures var e := TestArrival(BeforeArrival(s, m), m); e == s.(shown := e.shown)
  {
    NothingHere(s.gen2, s.bps, s.infos, m);
  }

  lemma SkipAgrees(f: Debugger, s: Debugger, c: Check)
    requires Agree(f, s) && Skips(f, c) && !c.key
    ensures Agree(Poll(f, c).d, Full(s, c).d) && Poll(f, c).ret == Full(s, c).ret
  {
    NothingDecided(s, c.cpu);
    var e := Decide(s, c);
    assert e == s.(shown := e.shown);
  }

  // ---- Announcements are never taken back ---------------------------------------------

  lemma {:induction false} ObeyAllLogs(s: Debugger, m: Cpu, cmds: seq<Command>)
    ensures |ObeyAll(s, m, cmds).log| >= |s.log|
    decreases |cmds|
  {
    if cmds != [] {
      ObeyAllLogs(Obey(s, m, cmds[0]), m, cmds[1..]);
    }
  }

  lemma CountLogs(s: Debugger, c: Check, served: seq<Command>)
    ensures |Count(s, c, served).d.log| >= |s.log|
  {
    ObeyAllLogs(s.(tick := 0), c.cpu, served);
  }

  lemma HandleLogs(s: Debugger, c: Check)
    ensures |Handle(s, c).d.log| >= |s.log|
  {
    var e := ObeyAll(s, c.cpu, c.served);
    CountLogs(s, c, c.served);
    ObeyAllLogs(s, c.cpu, c.served);
    ObeyAllLogs(e, c.cpu, c.keyed);
    CountLogs(ObeyAll(e, c.cpu, c.keyed), c, c.again);
  }

  /** A skipped poll does not see the key that the full check stops for. */
  lemma SkipMissesKey(f: Debugger, s: Debugger, c: Check)
    requires Agree(f, s) && Skips(f, c) && c.key
    ensures Poll(f, c).d.log == s.log
    ensures |Full(s, c).d.log| > |s.log|
  {
    NothingDecided(s, c.cpu);
    var e := Decide(s, c);
    assert |e.log| > |s.log|;
    HandleLogs(e, c);
  }

  // ---- Whole runs ------------------------------------------------------------------

  /** What happens between two checks, and the check. */
  datatype Round = Round(m: Cpu, between: seq<Command>, check: Check)

  function FullRun(d: Debugger, rounds: seq<Round>): seq<Outcome>
    decreases |rounds|
  {
    if rounds == [] then []
    else
      var o := Full(ObeyAll(d, rounds[0].m, rounds[0].between), rounds[0].check);
      [o] + FullRun(o.d, rounds[1..])
  }

  ghost function FastRun(d: Debugger, rounds: seq<Round>): seq<Outcome>
    decreases |rounds|
  {
    if rounds == [] then []
    else
      var o := Poll(ObeyAll(d, rounds[0].m, rounds[0].between), rounds[0].check);
      [o] + FastRun(o.d, rounds[1..])
  }

  /** The Break key is down at some check the fast run skips. */
  ghost predicate KeyAtSkip(d: Debugger, rounds: seq<Round>)
    decreases |rounds|
  {
    rounds != [] &&
    var e := ObeyAll(d, rounds[0].m, rounds[0].between);
    ((Skips(e, rounds[0].check) && rounds[0].check.key)
     || KeyAtSkip(Poll(e, rounds[0].check).d, rounds[1..]))
  }

  /** Alike in everything except the displayed location and the tick. */
  ghost predicate Same(a: Outcome, b: Outcome) {
    a.d.(shown := b.d.shown, tick := b.d.tick) == b.d && a.ret == b.ret
  }

  ghost predicate SameTrace(a: seq<Outcome>, b: seq<Outcome>) {
    |a| == |b| && forall i :: 0 <= i < |a| ==> Same(a[i], b[i])
  }

  lemma TraceCons(a: Outcome, b: Outcome, s: seq<Outcome>, t: seq<Outcome>)
    ensures SameTrace([a] + s, [b] + t) <==> Same(a, b) && SameTrace(s, t)
  {
    if SameTrace([a] + s, [b] + t) {
      assert ([a] + s)[0] == a && ([b] + t)[0] == b;
      forall i | 0 <= i < |s|
        ensures Same(s[i], t[i])
      {
        assert ([a] + s)[i+1] == s[i] && ([b] + t)[i+1] == t[i];
      }
    }
  }

  lemma TickedAgrees(f: Debugger, s: Debugger, c: Check)
    requires Agree(f, s) && !Skips(f, c)
    ensures Agree(Ticked(f, c.cpu), s)
  {
  }

  lemma PollAgrees(f: Debugger, s: Debugger, c: Check)
    requires Agree(f, s) && !(Skips(f, c) && c.key)
    ensures Agree(Poll(f, c).d, Full(s, c).d) && Poll(f, c).ret == Full(s, c).ret
  {
    if Skips(f, c) {
      SkipAgrees(f, s, c);
    } else {
      TickedAgrees(f, s, c);
      FullAgrees(Ticked(f, c.cpu), s, c);
    }
  }

  /** The fast run and the full run are the same run, exactly when the Break key is never
      down at a skipped poll. */
  lemma {:induction false} FastRunIsFullRun(f: Debugger, s: Debugger, rounds: seq<Round>)
    requires Agree(f, s)
    ensures SameTrace(FastRun(f, rounds), FullRun(s, rounds)) <==> !KeyAtSkip(f, rounds)
    decreases |rounds|
  {
    if rounds != [] {
      var r := rounds[0];
      var f1, s1 := ObeyAll(f, r.m, r.between), ObeyAll(s, r.m, r.between);
      ObeyAllAgrees(f, s, r.m, r.between);
      var a, b := Poll(f1, r.check), Full(s1, r.check);
      TraceCons(a, b, FastRun(a.d, rounds[1..]), FullRun(b.d, rounds[1..]));
      if Skips(f1, r.check) && r.check.key {
        SkipMissesKey(f1, s1, r.check);
      } else {
        PollAgrees(f1, s1, r.check);
        FastRunIsFullRun(a.d, b.d, rounds[1..]);
      }
    }
  }

  /** Every one of these checks is skipped. */
  ghost predicate AllSkipped(d: Debugger, rounds: seq<Round>)
    decreases |rounds|
  {
    rounds == [] ||
    var e := ObeyAll(d, rounds[0].m, rounds[0].between);
    Skips(e, rounds[0].check) && AllSkipped(Poll(e, rounds[0].check).d, rounds[1..])
  }

  lemma {:induction false} ObeyAllTick(d: Debugger, m: Cpu, cmds: seq<Command>)
    ensures ObeyAll(d, m, cmds).tick == d.tick
    decreases |cmds|
  {
    if cmds != [] {
      ObeyAllTick(Obey(d, m, cmds[0]), m, cmds[1..]);
    }
  }

  /** The full check is made at least once in any 1000 polls, whatever happens between them. */
  lemma {:induction false} FullCheckIsNotStarved(d: Debugger, rounds: seq<Round>)
    requires AllSkipped(d, rounds)
    ensures |rounds| < INTERVAL && (rounds != [] ==> d.tick + |rounds| < INTERVAL)
    decreases |rounds|
  {
    if rounds != [] {
      var e := ObeyAll(d, rounds[0].m, rounds[0].between);
      ObeyAllTick(d, rounds[0].m, rounds[0].between);
      FullCheckIsNotStarved(Poll(e, rounds[0].check).d, rounds[1..]);
    }
  }
}
