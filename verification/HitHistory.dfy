/**
 Hit counts over whole runs of the debugger: a count is the number of genuine, satisfied
 arrivals since it was last discarded, whatever else happened in between.
 */
module HitHistory {
  import opened Breakpoints
  import opened HitCounts
  import opened DebugCore
  import opened BreakpointTheorems
  import opened DebuggerState
  import opened FastPath

  function HitsOf(d: Debugger, key: BpKey): nat {
    InfoOf(d.infos, key).hits
  }

  /** The table is only ever changed by operations that keep its keys unique. */
  ghost predicate Sane(cmds: seq<Command>) {
    forall i :: 0 <= i < |cmds| && cmds[i].Retable? ==> Unique(cmds[i].bps)
  }

  // ---- Commands: only three discard a count, none adds to one ------------------------

  predicate Discards(cmd: Command, key: BpKey) {
    cmd.ForgetAll? || (cmd.Forget? && cmd.key == key) || (cmd.ResetHits? && cmd.key == key)
  }

  function Kept(n: nat, cmds: seq<Command>, key: BpKey): nat {
    if exists i :: 0 <= i < |cmds| && Discards(cmds[i], key) then 0 else n
  }

  lemma ReinfoHits(infos: map<BpKey, Info>, cmd: Command, key: BpKey)
    ensures InfoOf(Reinfo(infos, cmd), key).hits == if Discards(cmd, key) then 0 else InfoOf(infos, key).hits
  {
  }

  lemma ObeyInfos(d: Debugger, m: Cpu, cmd: Command)
    ensures Obey(d, m, cmd).infos == Reinfo(d.infos, cmd)
  {
  }

  lemma ObeyTable(d: Debugger, m: Cpu, cmd: Command)
    ensures Obey(d, m, cmd).bps == if cmd.Retable? then cmd.bps else d.bps
  {
  }

  lemma {:induction false} ObeyAllHits(d: Debugger, m: Cpu, cmds: seq<Command>, key: BpKey)
    requires Sane(cmds) && Unique(d.bps)
    ensures Unique(ObeyAll(d, m, cmds).bps)
    ensures HitsOf(ObeyAll(d, m, cmds), key) == Kept(HitsOf(d, key), cmds, key)
    decreases |cmds|
  {
    if cmds != [] {
      var next := Obey(d, m, cmds[0]);
      ObeyInfos(d, m, cmds[0]);
      ObeyTable(d, m, cmds[0]);
      ReinfoHits(d.infos, cmds[0], key);
      ObeyAllHits(next, m, cmds[1..], key);
      KeptCons(HitsOf(d, key), cmds, key);
    }
  }

  lemma KeptCons(n: nat, cmds: seq<Command>, key: BpKey)
    requires cmds != []
    ensures Kept(n, cmds, key) == Kept(if Discards(cmds[0], key) then 0 else n, cmds[1..], key)
  {
    if i :| 0 <= i < |cmds| && Discards(cmds[i], key) {
      if i > 0 {
        assert cmds[1..][i-1] == cmds[i];
      }
    }
  }

  // ---- When the processor has left the instruction it was resumed from ---------------

  /** What is on record of a run: execution was resumed, or the debugger looked, at this processor. */
  datatype Event = Resumed(m: Cpu) | Looked(m: Cpu)

  predicate LastResume(h: seq<Event>, i: int) {
    0 <= i < |h| && h[i].Resumed? && forall j :: i < j < |h| ==> h[j].Looked?
  }

  /** At another instruction, or back at this one: a clock that only runs on in a wait does not count. */
  predicate Elsewhere(at: Cpu, m: Cpu) {
    m.pc != at.pc || m.k != at.k || (m.clock != at.clock && !m.waiting)
  }

  /** Some look since the last resume found the processor elsewhere; or there was no resume. */
  ghost predicate Left(h: seq<Event>) {
    forall i :: LastResume(h, i) ==> exists j :: i < j < |h| && Elsewhere(h[i].m, h[j].m)
  }

  /** The resume guard says what the record says: spent once the processor has left, and otherwise
      the instruction and the clock of the last resume. */
  ghost predicate Tells(g: Guard, h: seq<Event>) {
    (g.pc < 0 <==> Left(h))
    && forall i :: LastResume(h, i) && !Left(h) ==> g == Guard(h[i].m.pc, h[i].m.k, h[i].m.clock)
  }

  lemma NoResumeMatches(g: Guard)
    requires g.pc < 0
    ensures Tells(g, [])
  {
  }

  lemma ResumedMatches(h: seq<Event>, m: Cpu)
    ensures Tells(Guard(m.pc, m.k, m.clock), h + [Resumed(m)])
  {
    var now := h + [Resumed(m)];
    assert LastResume(now, |h|);
    forall i | LastResume(now, i)
      ensures i == |h|
    {
      assert now[|h|].Resumed?;
    }
  }

  lemma LastResumeKept(h: seq<Event>, m: Cpu, i: int)
    ensures LastResume(h + [Looked(m)], i) <==> LastResume(h, i)
  {
    var now := h + [Looked(m)];
    assert forall j :: 0 <= j < |h| ==> now[j] == h[j];
  }

  /** A look leaves the instruction left if it was, or if it finds the processor elsewhere. */
  lemma LookedLeft(h: seq<Event>, m: Cpu, i: int)
    requires LastResume(h, i)
    ensures Left(h + [Looked(m)]) <==> Left(h) || Elsewhere(h[i].m, m)
  {
    var now := h + [Looked(m)];
    LastResumeKept(h, m, i);
    forall o | LastResume(h, o) || LastResume(now, o)
      ensures o == i
    {
      LastResumeKept(h, m, o);
    }
    if Elsewhere(h[i].m, m) {
      assert Elsewhere(now[i].m, now[|h|].m);
    }
    if Left(h) {
      var j :| i < j < |h| && Elsewhere(h[i].m, h[j].m);
      assert Elsewhere(now[i].m, now[j].m);
    }
    if Left(now) {
      var j :| i < j < |now| && Elsewhere(now[i].m, now[j].m);
      assert j < |h| ==> Elsewhere(h[i].m, h[j].m);
    }
  }

  lemma LookedMatches(g: Guard, h: seq<Event>, m: Cpu)
    requires Tells(g, h)
    ensures Tells(if MovedOn(g, m) then g.(pc := -1) else g, h + [Looked(m)])
  {
    forall i
      ensures LastResume(h + [Looked(m)], i) <==> LastResume(h, i)
    {
      LastResumeKept(h, m, i);
    }
    if i :| LastResume(h, i) {
      LookedLeft(h, m, i);
    }
  }

  predicate Resumes(cmd: Command) {
    cmd.Continue? || cmd.StepInto? || cmd.StepOver? || cmd.StepOut? || cmd.RunTo?
  }

  /** The record with the commands given at one processor added. */
  function Noted(h: seq<Event>, m: Cpu, cmds: seq<Command>): seq<Event>
    decreases |cmds|
  {
    if cmds == [] then h
    else Noted(if Resumes(cmds[0]) then h + [Resumed(m)] else h, m, cmds[1..])
  }

  lemma {:induction false} NotedAppend(h: seq<Event>, m: Cpu, a: seq<Command>, b: seq<Command>)
    ensures Noted(Noted(h, m, a), m, b) == Noted(h, m, a + b)
    decreases |a|
  {
    if a == [] {
      assert a + b == b;
    } else {
      NotedAppend(if Resumes(a[0]) then h + [Resumed(m)] else h, m, a[1..], b);
      assert (a + b)[1..] == a[1..] + b;
    }
  }

  lemma ObeyGuard(d: Debugger, m: Cpu, cmd: Command)
    ensures Obey(d, m, cmd).guard == if Resumes(cmd) then Guard(m.pc, m.k, m.clock) else d.guard
  {
  }

  lemma {:induction false} ObeyAllMatches(d: Debugger, m: Cpu, cmds: seq<Command>, h: seq<Event>)
    requires Tells(d.guard, h)
    ensures Tells(ObeyAll(d, m, cmds).guard, Noted(h, m, cmds))
    decreases |cmds|
  {
    if cmds != [] {
      ObeyGuard(d, m, cmds[0]);
      ResumedMatches(h, m);
      ObeyAllMatches(Obey(d, m, cmds[0]), m, cmds[1..], if Resumes(cmds[0]) then h + [Resumed(m)] else h);
    }
  }

  // ---- One check ---------------------------------------------------------------------

  /** The machine has genuinely come to this instruction: nothing looked at first halts it, it has
      left the instruction it was resumed from, and it is not waiting for an interrupt. */
  ghost predicate Genuine(d: Debugger, h: seq<Event>, c: Check) {
    BeforeArrival(d, c.cpu).mode != Stopped && Left(h + [Looked(c.cpu)]) && !c.cpu.waiting
  }

  lemma PendingGuard(d: Debugger, m: Cpu)
    ensures TakeInterrupt(FirstShown(d, m), m).guard == d.guard
  {
  }

  lemma SpentGuard(d: Debugger, m: Cpu)
    ensures SpendGuard(d, m).guard == if MovedOn(d.guard, m) then d.guard.(pc := -1) else d.guard
  {
  }

  lemma SettledGuard(d: Debugger, m: Cpu)
    ensures RetireStep(TakeWatch(d, m), m).guard == d.guard
  {
  }

  lemma EarlyGuard(d: Debugger, m: Cpu)
    ensures BeforeArrival(d, m).guard == if MovedOn(d.guard, m) then d.guard.(pc := -1) else d.guard
  {
    PendingGuard(d, m);
    SettledGuard(TakeInterrupt(FirstShown(d, m), m), m);
    SpentGuard(RetireStep(TakeWatch(TakeInterrupt(FirstShown(d, m), m), m), m), m);
  }

  /** The check's own test, made on the guard, holds exactly of the genuine arrivals. */
  lemma ArrivingIsGenuine(d: Debugger, h: seq<Event>, c: Check)
    requires Tells(d.guard, h)
    ensures Arriving(BeforeArrival(d, c.cpu), c.cpu) <==> Genuine(d, h, c)
    ensures Tells(BeforeArrival(d, c.cpu).guard, h + [Looked(c.cpu)])
  {
    EarlyGuard(d, c.cpu);
    LookedMatches(d.guard, h, c.cpu);
  }

  lemma LateGuard(d: Debugger, c: Check)
    ensures RepairShown(TestKey(TestArrival(d, c.cpu), c), c.cpu).guard == d.guard
  {
  }

  lemma DecideMatches(d: Debugger, h: seq<Event>, c: Check)
    requires Tells(d.guard, h)
    ensures Tells(Decide(d, c).guard, h + [Looked(c.cpu)])
  {
    ArrivingIsGenuine(d, h, c);
    LateGuard(BeforeArrival(d, c.cpu), c);
  }

  /** This arrival is one for `key`: armed, matching, satisfied, and nothing earlier in the table fires. */
  ghost predicate CountedFor(d: Debugger, h: seq<Event>, c: Check, key: BpKey) {
    var i := Breakpoints.Find(d.bps, key);
    Genuine(d, h, c) && i < |d.bps| && Counts(d.gen2, d.bps[i], d.infos, c.cpu)
    && i <= FirstFiring(d.gen2, d.bps, d.infos, c.cpu)
  }

  ghost predicate SameTable(e: Debugger, d: Debugger) {
    e.infos == d.infos && e.bps == d.bps && e.gen2 == d.gen2
  }

  lemma PendingKeep(d: Debugger, m: Cpu)
    ensures SameTable(TakeInterrupt(FirstShown(d, m), m), d)
  {
  }

  lemma SettledKeep(d: Debugger, m: Cpu)
    ensures SameTable(SpendGuard(RetireStep(TakeWatch(d, m), m), m), d)
  {
  }

  lemma EarlyKeeps(d: Debugger, m: Cpu)
    ensures SameTable(BeforeArrival(d, m), d)
  {
    PendingKeep(d, m);
    SettledKeep(TakeInterrupt(FirstShown(d, m), m), m);
  }

  lemma LateKeeps(d: Debugger, c: Check)
    ensures var e := RepairShown(TestKey(d, c), c.cpu);
            e.infos == d.infos && e.bps == d.bps && (d.mode == Stopped ==> e.mode == Stopped)
  {
  }

  lemma TestArrivalInfos(d: Debugger, m: Cpu)
    ensures TestArrival(d, m).bps == d.bps
    ensures TestArrival(d, m).infos == if Arriving(d, m) then Arrive(d.gen2, d.bps, d.infos, m).infos else d.infos
    ensures Arriving(d, m) && Arrive(d.gen2, d.bps, d.infos, m).stop ==> TestArrival(d, m).mode == Stopped
  {
  }

  lemma DecideCounts(d: Debugger, h: seq<Event>, c: Check, key: BpKey)
    requires Unique(d.bps) && Tells(d.guard, h)
    ensures Decide(d, c).bps == d.bps
    ensures HitsOf(Decide(d, c), key) == HitsOf(d, key) + if CountedFor(d, h, c, key) then 1 else 0
    ensures CountedFor(d, h, c, key) && HitsOf(d, key) >= InfoOf(d.infos, key).ignoring ==> Decide(d, c).mode == Stopped
  {
    var e := BeforeArrival(d, c.cpu);
    EarlyKeeps(d, c.cpu);
    ArrivingIsGenuine(d, h, c);
    TestArrivalInfos(e, c.cpu);
    LateKeeps(TestArrival(e, c.cpu), c);
    var i := Breakpoints.Find(d.bps, key);
    ArriveStops(d.gen2, d.bps, d.infos, c.cpu);
    if i < |d.bps| {
      ArriveCounts(d.gen2, d.bps, d.infos, c.cpu, i);
    } else {
      ArriveElsewhere(d.gen2, d.bps, d.infos, c.cpu, key);
    }
  }

  // ---- Whole runs ---------------------------------------------------------------------

  function CountDelivers(d: Debugger, served: seq<Command>): seq<Command> {
    if d.tick + 1 < INTERVAL then [] else served
  }

  function PausedDelivers(d: Debugger, c: Check): seq<Command> {
    var e := ObeyAll(d, c.cpu, c.keyed);
    if c.graphical || c.quit || e.mode == Stopped then c.keyed else c.keyed + CountDelivers(e, c.again)
  }

  /** The commands the socket and the paused interface get to deliver at this check. */
  function Delivered(d: Debugger, c: Check): seq<Command> {
    if d.mode == Running then CountDelivers(d, c.served)
    else if !c.pump then []
    else
      var e := ObeyAll(d, c.cpu, c.served);
      if e.mode != Stopped then c.served else c.served + PausedDelivers(e, c)
  }

  lemma KeptAppend(n: nat, a: seq<Command>, b: seq<Command>, key: BpKey)
    ensures Kept(Kept(n, a, key), b, key) == Kept(n, a + b, key)
  {
    if i :| 0 <= i < |a| && Discards(a[i], key) {
      assert Discards((a + b)[i], key);
    }
    if i :| 0 <= i < |b| && Discards(b[i], key) {
      assert Discards((a + b)[|a| + i], key);
    }
  }

  ghost predicate SaneCheck(c: Check) {
    Sane(c.served) && Sane(c.keyed) && Sane(c.again)
  }

  lemma CountHits(d: Debugger, c: Check, served: seq<Command>, key: BpKey)
    requires Sane(served) && Unique(d.bps)
    ensures Unique(Count(d, c, served).d.bps)
    ensures HitsOf(Count(d, c, served).d, key) == Kept(HitsOf(d, key), CountDelivers(d, served), key)
  {
    ObeyAllHits(d.(tick := 0), c.cpu, served, key);
  }

  lemma CountMatches(d: Debugger, c: Check, served: seq<Command>, h: seq<Event>)
    requires Tells(d.guard, h)
    ensures Tells(Count(d, c, served).d.guard, Noted(h, c.cpu, CountDelivers(d, served)))
  {
    ObeyAllMatches(d.(tick := 0), c.cpu, served, h);
  }

  lemma PausedMatches(d: Debugger, c: Check, h: seq<Event>)
    requires Tells(d.guard, h)
    ensures Tells(Paused(d, c).d.guard, Noted(h, c.cpu, PausedDelivers(d, c)))
  {
    var e := ObeyAll(d, c.cpu, c.keyed);
    ObeyAllMatches(d, c.cpu, c.keyed, h);
    CountMatches(e, c, c.again, Noted(h, c.cpu, c.keyed));
    NotedAppend(h, c.cpu, c.keyed, CountDelivers(e, c.again));
  }

  lemma HandleMatches(d: Debugger, c: Check, h: seq<Event>)
    requires Tells(d.guard, h)
    ensures Tells(Handle(d, c).d.guard, Noted(h, c.cpu, Delivered(d, c)))
  {
    if d.mode == Running {
      CountMatches(d, c, c.served, h);
    } else if c.pump {
      var e := ObeyAll(d, c.cpu, c.served);
      ObeyAllMatches(d, c.cpu, c.served, h);
      PausedMatches(e, c, Noted(h, c.cpu, c.served));
      NotedAppend(h, c.cpu, c.served, PausedDelivers(e, c));
    }
  }

  lemma PausedHits(d: Debugger, c: Check, key: BpKey)
    requires SaneCheck(c) && Unique(d.bps)
    ensures Unique(Paused(d, c).d.bps)
    ensures HitsOf(Paused(d, c).d, key) == Kept(HitsOf(d, key), PausedDelivers(d, c), key)
  {
    var e := ObeyAll(d, c.cpu, c.keyed);
    ObeyAllHits(d, c.cpu, c.keyed, key);
    CountHits(e, c, c.again, key);
    KeptAppend(HitsOf(d, key), c.keyed, CountDelivers(e, c.again), key);
  }

  lemma HandleHits(d: Debugger, c: Check, key: BpKey)
    requires SaneCheck(c) && Unique(d.bps)
    ensures Unique(Handle(d, c).d.bps)
    ensures HitsOf(Handle(d, c).d, key) == Kept(HitsOf(d, key), Delivered(d, c), key)
  {
    if d.mode == Running {
      CountHits(d, c, c.served, key);
    } else if c.pump {
      var e := ObeyAll(d, c.cpu, c.served);
      ObeyAllHits(d, c.cpu, c.served, key);
      PausedHits(e, c, key);
      KeptAppend(HitsOf(d, key), c.served, PausedDelivers(e, c), key);
    }
  }

  ghost predicate SaneRounds(rounds: seq<Round>) {
    forall i :: 0 <= i < |rounds| ==> Sane(rounds[i].between) && SaneCheck(rounds[i].check)
  }

  function RoundEnd(d: Debugger, r: Round): Debugger {
    Full(ObeyAll(d, r.m, r.between), r.check).d
  }

  /** The record after a round: what was given before the check, the look, what was given at the check. */
  function RoundNoted(d: Debugger, h: seq<Event>, r: Round): seq<Event> {
    var e := ObeyAll(d, r.m, r.between);
    Noted(Noted(h, r.m, r.between) + [Looked(r.check.cpu)], r.check.cpu, Delivered(Decide(e, r.check), r.check))
  }

  /** What one round makes of a count of `n`. */
  ghost function RoundTally(d: Debugger, h: seq<Event>, r: Round, key: BpKey, n: nat): nat {
    var e := ObeyAll(d, r.m, r.between);
    var counted := Kept(n, r.between, key)
                   + if CountedFor(e, Noted(h, r.m, r.between), r.check, key) then 1 else 0;
    Kept(counted, Delivered(Decide(e, r.check), r.check), key)
  }

  lemma RoundMatches(d: Debugger, h: seq<Event>, r: Round)
    requires Tells(d.guard, h)
    ensures Tells(RoundEnd(d, r).guard, RoundNoted(d, h, r))
  {
    var e := ObeyAll(d, r.m, r.between);
    ObeyAllMatches(d, r.m, r.between, h);
    DecideMatches(e, Noted(h, r.m, r.between), r.check);
    HandleMatches(Decide(e, r.check), r.check, Noted(h, r.m, r.between) + [Looked(r.check.cpu)]);
  }

  lemma RoundHits(d: Debugger, h: seq<Event>, r: Round, key: BpKey)
    requires Unique(d.bps) && Sane(r.between) && SaneCheck(r.check) && Tells(d.guard, h)
    ensures Unique(RoundEnd(d, r).bps)
    ensures HitsOf(RoundEnd(d, r), key) == RoundTally(d, h, r, key, HitsOf(d, key))
  {
    var e := ObeyAll(d, r.m, r.between);
    ObeyAllHits(d, r.m, r.between, key);
    ObeyAllMatches(d, r.m, r.between, h);
    DecideCounts(e, Noted(h, r.m, r.between), r.check, key);
    HandleHits(Decide(e, r.check), r.check, key);
  }

  function FinalOf(d: Debugger, rounds: seq<Round>): Debugger
    decreases |rounds|
  {
    if rounds == [] then d else FinalOf(RoundEnd(d, rounds[0]), rounds[1..])
  }

  /** Everything on record after a run. */
  function Record(d: Debugger, h: seq<Event>, rounds: seq<Round>): seq<Event>
    decreases |rounds|
  {
    if rounds == [] then h else Record(RoundEnd(d, rounds[0]), RoundNoted(d, h, rounds[0]), rounds[1..])
  }

  /** `n`, then one more for every arrival counted for `key`, back to zero at every discard. */
  ghost function Tally(d: Debugger, h: seq<Event>, rounds: seq<Round>, key: BpKey, n: nat): nat
    decreases |rounds|
  {
    if rounds == [] then n
    else Tally(RoundEnd(d, rounds[0]), RoundNoted(d, h, rounds[0]), rounds[1..], key,
               RoundTally(d, h, rounds[0], key, n))
  }

  /** Over any run the guard is spent exactly when the record says the processor has left the
      instruction it was last resumed from. */
  lemma {:induction false} GuardIsTheRecord(d: Debugger, h: seq<Event>, rounds: seq<Round>)
    requires Tells(d.guard, h)
    ensures Tells(FinalOf(d, rounds).guard, Record(d, h, rounds))
    ensures FinalOf(d, rounds).guard.pc < 0 <==> Left(Record(d, h, rounds))
    decreases |rounds|
  {
    if rounds != [] {
      RoundMatches(d, h, rounds[0]);
      GuardIsTheRecord(RoundEnd(d, rounds[0]), RoundNoted(d, h, rounds[0]), rounds[1..]);
    }
  }

  /** A hit count is the number of genuine satisfied arrivals since it was last discarded. */
  lemma {:induction false} HitsAreGenuineArrivals(d: Debugger, h: seq<Event>, rounds: seq<Round>, key: BpKey)
    requires Unique(d.bps) && SaneRounds(rounds) && Tells(d.guard, h)
    ensures HitsOf(FinalOf(d, rounds), key) == Tally(d, h, rounds, key, HitsOf(d, key))
    decreases |rounds|
  {
    if rounds != [] {
      assert Sane(rounds[0].between) && SaneCheck(rounds[0].check);
      RoundHits(d, h, rounds[0], key);
      RoundMatches(d, h, rounds[0]);
      HitsAreGenuineArrivals(RoundEnd(d, rounds[0]), RoundNoted(d, h, rounds[0]), rounds[1..], key);
    }
  }

  /** From power on, with nothing resumed yet. */
  lemma HitsSincePowerOn(d: Debugger, rounds: seq<Round>, key: BpKey)
    requires Unique(d.bps) && SaneRounds(rounds)
    requires d.guard.pc < 0 && HitsOf(d, key) == 0
    ensures HitsOf(FinalOf(d, rounds), key) == Tally(d, [], rounds, key, 0)
  {
    NoResumeMatches(d.guard);
    HitsAreGenuineArrivals(d, [], rounds, key);
  }

  // ---- Standing still -----------------------------------------------------------------

  /** Just resumed, an arrival is genuine exactly when the processor has moved on and is not parked
      in a wait; until it has moved on, the guard stays. */
  lemma GenuineExactly(d: Debugger, h: seq<Event>, at: Cpu, c: Check)
    requires d.mode == Running && !d.watchPending && !d.irq.entered
    requires Tells(d.guard, h + [Resumed(at)])
    ensures Genuine(d, h + [Resumed(at)], c) <==> Elsewhere(at, c.cpu) && !c.cpu.waiting
    ensures !Elsewhere(at, c.cpu) ==> Decide(d, c).guard == d.guard
  {
    ResumedMatches(h, at);
    assert LastResume(h + [Resumed(at)], |h|);
    LookedLeft(h + [Resumed(at)], c.cpu, |h|);
    LateGuard(BeforeArrival(d, c.cpu), c);
  }

  /** Halted, or running from an instruction the processor has not left; nothing else pending. */
  predicate Parked(d: Debugger, at: Guard) {
    !d.watchPending && !d.irq.entered
    && (d.mode == Stopped || (d.mode == Running && d.guard == at && at.pc >= 0))
  }

  /** A round in which nobody gives a command and the processor stays where it was resumed. */
  predicate StandsStill(r: Round, at: Guard) {
    r.between == [] && r.check.served == [] && r.check.keyed == [] && r.check.again == []
    && r.check.cpu.pc == at.pc && r.check.cpu.k == at.bank && (r.check.cpu.clock == at.clock || r.check.cpu.waiting)
  }

  lemma ParkedNotArriving(d: Debugger, m: Cpu, at: Guard)
    requires Parked(d, at)
    requires m.pc == at.pc && m.k == at.bank && (m.clock == at.clock || m.waiting)
    ensures Parked(BeforeArrival(d, m), at) && !Arriving(BeforeArrival(d, m), m)
  {
  }

  lemma ParkedLate(d: Debugger, c: Check, at: Guard)
    requires Parked(d, at)
    ensures Parked(RepairShown(TestKey(d, c), c.cpu), at)
  {
  }

  lemma ParkedDecides(d: Debugger, c: Check, at: Guard)
    requires Parked(d, at)
    requires c.cpu.pc == at.pc && c.cpu.k == at.bank && (c.cpu.clock == at.clock || c.cpu.waiting)
    ensures Parked(Decide(d, c), at) && Decide(d, c).infos == d.infos
  {
    var e := BeforeArrival(d, c.cpu);
    EarlyKeeps(d, c.cpu);
    ParkedNotArriving(d, c.cpu, at);
    ParkedLate(e, c, at);
    LateKeeps(e, c);
  }

  lemma QuietHandles(d: Debugger, c: Check, at: Guard)
    requires Parked(d, at) && c.served == [] && c.keyed == [] && c.again == []
    ensures Parked(Handle(d, c).d, at) && Handle(d, c).d.infos == d.infos
  {
  }

  /** However often the debugger looks while the machine stands still, nothing is counted and no
      ignore budget is spent. */
  lemma {:induction false} StandingStillCountsNothing(d: Debugger, rounds: seq<Round>, at: Guard)
    requires Parked(d, at) && forall i :: 0 <= i < |rounds| ==> StandsStill(rounds[i], at)
    ensures FinalOf(d, rounds).infos == d.infos
    decreases |rounds|
  {
    if rounds != [] {
      var r := rounds[0];
      ParkedDecides(d, r.check, at);
      QuietHandles(Decide(d, r.check), r.check, at);
      StandingStillCountsNothing(RoundEnd(d, r), rounds[1..], at);
    }
  }
}
