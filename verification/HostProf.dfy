/**
 Host time by section: sections nest and are exclusive, time outside them all belongs to
 the emulation, and nothing is ever counted twice or lost. Eight nested sections are told
 apart; a ninth only keeps its end from closing the eighth.
 */
module HostProf {
  import opened Numbers

  const SECTIONS: nat := 9
  const EMU: nat := 0
  const SLEEP: nat := 5
  const DEPTH: nat := 8
  const UINT32_MAX: nat := 0xFFFF_FFFF

  type Section = s: int | 0 <= s < SECTIONS witness 0

  /** The open sections, innermost last, and how many more are open past the last that is kept. */
  datatype Open = Open(stack: seq<Section>, beyond: nat)

  /** What is open; the time of the last charge; ticks of the frame in progress, and of the frames
      before it, by section. */
  datatype Profile = Profile(open: Open, mark: nat, frame: seq<nat>, total: seq<nat>)

  predicate Nested(o: Open) {
    |o.stack| <= DEPTH && (o.beyond > 0 ==> |o.stack| == DEPTH)
  }

  predicate Shaped(p: Profile) {
    Nested(p.open) && |p.frame| == SECTIONS && |p.total| == SECTIONS
  }

  function Top(o: Open): Section {
    if o.stack == [] then EMU else o.stack[|o.stack|-1]
  }

  function Charged(p: Profile, t: nat): Profile
    requires Shaped(p) && p.mark <= t
  {
    p.(frame := p.frame[Top(p.open) := p.frame[Top(p.open)] + (t - p.mark)], mark := t)
  }

  datatype Op = Begin(t: nat, s: int) | End(t: nat) | FrameEnd(t: nat)

  predicate Opens(op: Op) {
    op.Begin? && EMU < op.s < SECTIONS
  }

  /** What is open after an operation. */
  function OpenAfter(o: Open, op: Op): Open {
    if Opens(op) then
      if |o.stack| < DEPTH then o.(stack := o.stack + [op.s]) else o.(beyond := o.beyond + 1)
    else if !op.End? then o
    else if o.beyond > 0 then o.(beyond := o.beyond - 1)
    else if o.stack != [] then o.(stack := o.stack[..|o.stack|-1])
    else o
  }

  /** Which operations charge the time so far. */
  predicate Charges(o: Open, op: Op) {
    op.FrameEnd? || Opens(op) || (op.End? && o.stack != [] && o.beyond == 0)
  }

  /** Closing a section undoes opening it, a ninth and deeper included. */
  lemma EndUndoesBegin(o: Open, t: nat, s: int, u: nat)
    requires Nested(o) && 0 < s < 9
    ensures OpenAfter(OpenAfter(o, Begin(t, s)), End(u)) == o
    ensures o.stack != [] || o.beyond > 0 ==> OpenAfter(o, End(u)) != o
  {
  }

  /** The emulation, which is section 0, and numbers that are no section are never opened; and at the
      bottom there is nothing to close. */
  lemma NothingOpened(o: Open, t: nat, s: int)
    requires s <= 0 || s >= 9
    ensures OpenAfter(o, Begin(t, s)) == o && !Charges(o, Begin(t, s))
    ensures OpenAfter(Open([], 0), End(t)) == Open([], 0) && !Charges(Open([], 0), End(t))
  {
  }

  function Zeros(): seq<nat> {
    [0, 0, 0, 0, 0, 0, 0, 0, 0]
  }

  function Added(a: seq<nat>, b: seq<nat>): seq<nat>
    requires |a| == |b|
  {
    seq(|a|, i requires 0 <= i < |a| => a[i] + b[i])
  }

  function Applied(p: Profile, op: Op): Profile
    requires Shaped(p) && p.mark <= op.t
  {
    var c := (if Charges(p.open, op) then Charged(p, op.t) else p).(open := OpenAfter(p.open, op));
    if op.FrameEnd? then c.(total := Added(c.total, c.frame), frame := Zeros()) else c
  }

  // ---- Where the time went ------------------------------------------------------------------

  /** Ticks put down to a section by time `now`, whether or not they have been charged yet. */
  function Account(p: Profile, s: Section, now: nat): nat
    requires Shaped(p) && p.mark <= now
  {
    p.total[s] + p.frame[s] + if Top(p.open) == s then now - p.mark else 0
  }

  /** Operations in time order, from `now`, none of them charging while a ninth section is open. */
  predicate Timely(o: Open, now: nat, ops: seq<Op>)
    decreases |ops|
  {
    ops == [] ||
    (now <= ops[0].t && (Charges(o, ops[0]) ==> o.beyond == 0) && Timely(OpenAfter(o, ops[0]), ops[0].t, ops[1..]))
  }

  /** How long the section was the innermost of those kept open. */
  function Spent(o: Open, now: nat, ops: seq<Op>, s: Section): nat
    requires Timely(o, now, ops)
    decreases |ops|
  {
    if ops == [] then 0
    else
      (if Top(o) == s then ops[0].t - now else 0)
      + Spent(OpenAfter(o, ops[0]), ops[0].t, ops[1..], s)
  }

  function LastTime(now: nat, ops: seq<Op>): nat {
    if ops == [] then now else ops[|ops|-1].t
  }

  function Run(p: Profile, now: nat, ops: seq<Op>): (r: Profile)
    requires Shaped(p) && p.mark <= now && Timely(p.open, now, ops)
    ensures Shaped(r) && r.mark <= LastTime(now, ops)
    decreases |ops|
  {
    if ops == [] then p
    else
      AppliedOpen(p, ops[0]);
      Run(Applied(p, ops[0]), ops[0].t, ops[1..])
  }

  lemma AppliedOpen(p: Profile, op: Op)
    requires Shaped(p) && p.mark <= op.t
    ensures Shaped(Applied(p, op)) && Applied(p, op).open == OpenAfter(p.open, op) && Applied(p, op).mark <= op.t
  {
  }

  lemma AccountStep(p: Profile, op: Op, s: Section, now: nat)
    requires Shaped(p) && p.mark <= now <= op.t
    ensures Shaped(Applied(p, op)) && Applied(p, op).mark <= op.t
    ensures Account(Applied(p, op), s, op.t) == Account(p, s, now) + if Top(p.open) == s then op.t - now else 0
  {
  }

  /** Over any run every section is charged exactly the time it was innermost. */
  lemma {:induction false} ChargedIsSpent(p: Profile, now: nat, ops: seq<Op>, s: Section)
    requires Shaped(p) && p.mark <= now && Timely(p.open, now, ops)
    ensures Account(Run(p, now, ops), s, LastTime(now, ops)) == Account(p, s, now) + Spent(p.open, now, ops, s)
    decreases |ops|
  {
    if ops != [] {
      AccountStep(p, ops[0], s, now);
      AppliedOpen(p, ops[0]);
      ChargedIsSpent(Applied(p, ops[0]), ops[0].t, ops[1..], s);
    }
  }

  // ---- Nothing lost ------------------------------------------------------------------------

  function Sum(a: seq<nat>): nat {
    if a == [] then 0 else Sum(a[..|a|-1]) + a[|a|-1]
  }

  lemma {:induction false} SumUpdate(a: seq<nat>, i: nat, v: nat)
    requires i < |a|
    ensures Sum(a[i := v]) == Sum(a) - a[i] + v
  {
    if i == |a| - 1 {
      assert a[i := v][..|a|-1] == a[..|a|-1];
    } else {
      assert a[i := v][..|a|-1] == a[..|a|-1][i := v];
      SumUpdate(a[..|a|-1], i, v);
    }
  }

  lemma {:induction false} SumAdded(a: seq<nat>, b: seq<nat>)
    requires |a| == |b|
    ensures Sum(Added(a, b)) == Sum(a) + Sum(b)
  {
    if a != [] {
      assert Added(a, b)[..|a|-1] == Added(a[..|a|-1], b[..|b|-1]);
      SumAdded(a[..|a|-1], b[..|b|-1]);
    }
  }

  lemma {:induction false} SumZero(a: seq<nat>)
    requires forall i :: 0 <= i < |a| ==> a[i] == 0
    ensures Sum(a) == 0
  {
    if a != [] {
      SumZero(a[..|a|-1]);
    }
  }

  function Everything(p: Profile): nat {
    Sum(p.frame) + Sum(p.total)
  }

  lemma ChargedTotal(p: Profile, t: nat)
    requires Shaped(p) && p.mark <= t
    ensures Everything(Charged(p, t)) == Everything(p) + (t - p.mark)
  {
    SumUpdate(p.frame, Top(p.open), p.frame[Top(p.open)] + (t - p.mark));
  }

  lemma AppliedTotal(p: Profile, op: Op)
    requires Shaped(p) && p.mark <= op.t
    ensures Everything(Applied(p, op)) + p.mark == Everything(p) + Applied(p, op).mark
    ensures op.FrameEnd? ==> Applied(p, op).mark == op.t
  {
    ChargedTotal(p, op.t);
    if op.FrameEnd? {
      var c := Charged(p, op.t);
      SumAdded(c.total, c.frame);
      SumZero(Zeros());
    }
  }

  /** Charged ticks are exactly the time that has passed up to the last charge. */
  lemma {:induction false} TimeConserved(p: Profile, now: nat, ops: seq<Op>)
    requires Shaped(p) && p.mark <= now && Timely(p.open, now, ops)
    ensures Everything(Run(p, now, ops)) + p.mark == Everything(p) + Run(p, now, ops).mark
    decreases |ops|
  {
    if ops != [] {
      AppliedOpen(p, ops[0]);
      AppliedTotal(p, ops[0]);
      TimeConserved(Applied(p, ops[0]), ops[0].t, ops[1..]);
    }
  }

  // ---- Microseconds --------------------------------------------------------------------------

  function Micros(ticks: nat, freq: nat): nat
    requires freq > 0
  {
    ticks * 1000000 / freq
  }

  /** As it is stored, in 32 bits. */
  function ToUs(ticks: nat, freq: nat): nat
    requires freq > 0
  {
    if Micros(ticks, freq) > UINT32_MAX then UINT32_MAX else Micros(ticks, freq)
  }

  function AllUs(a: seq<nat>, freq: nat): seq<nat>
    requires freq > 0
  {
    seq(|a|, i requires 0 <= i < |a| => ToUs(a[i], freq))
  }

  lemma DivParts(x: nat, y: nat, f: nat)
    requires f > 0
    ensures x / f + y / f <= (x + y) / f <= x / f + y / f + 1
  {
    var a, b := x / f, y / f;
    Distribute(f, a, b);
    assert x == f * a + x % f && y == f * b + y % f;
    Quotient(x + y, f, a + b, x % f + y % f);
  }

  lemma Distribute(f: nat, a: nat, b: nat)
    ensures f * (a + b) == f * a + f * b
  {
  }

  lemma Quotient(n: nat, f: nat, q: nat, r: nat)
    requires f > 0 && n == f * q + r && r < 2 * f
    ensures q <= n / f <= q + 1
  {
    var k := n / f;
    assert n == f * k + n % f;
    Mono(f, k + 1, q);
    Mono(f, q + 2, k);
  }

  lemma MicrosAdd(x: nat, y: nat, freq: nat)
    requires freq > 0
    ensures Micros(x, freq) + Micros(y, freq) <= Micros(x + y, freq) <= Micros(x, freq) + Micros(y, freq) + 1
  {
    DivParts(x * 1000000, y * 1000000, freq);
  }

  lemma MicrosNone(freq: nat)
    requires freq > 0
    ensures Micros(0, freq) == 0
  {
  }

  lemma AllUsStep(a: seq<nat>, freq: nat)
    requires freq > 0 && a != []
    ensures Sum(AllUs(a, freq)) == Sum(AllUs(a[..|a|-1], freq)) + ToUs(a[|a|-1], freq)
  {
    assert AllUs(a, freq)[..|a|-1] == AllUs(a[..|a|-1], freq);
  }

  function AllMicros(a: seq<nat>, freq: nat): seq<nat>
    requires freq > 0
  {
    seq(|a|, i requires 0 <= i < |a| => Micros(a[i], freq))
  }

  /** Rounding each section down loses less than a microsecond a section. */
  lemma {:induction false} MicrosOfSum(a: seq<nat>, freq: nat)
    requires freq > 0 && a != []
    ensures Sum(AllMicros(a, freq)) <= Micros(Sum(a), freq) < Sum(AllMicros(a, freq)) + |a|
  {
    var front, last := a[..|a|-1], a[|a|-1];
    MicrosAdd(Sum(front), last, freq);
    assert AllMicros(a, freq)[..|a|-1] == AllMicros(front, freq);
    if front != [] {
      MicrosOfSum(front, freq);
    } else {
      MicrosNone(freq);
    }
  }

  /** Keeping sections in 32 bits changes their sum only when one of them alone fills them. */
  lemma {:induction false} SumKept(a: seq<nat>, freq: nat)
    requires freq > 0
    ensures Sum(AllUs(a, freq)) <= Sum(AllMicros(a, freq))
    ensures Sum(AllUs(a, freq)) == Sum(AllMicros(a, freq)) || Sum(AllUs(a, freq)) >= UINT32_MAX
  {
    if a != [] {
      SumKept(a[..|a|-1], freq);
      AllUsStep(a, freq);
      assert AllMicros(a, freq)[..|a|-1] == AllMicros(a[..|a|-1], freq);
    }
  }

  /** A frame's sections add up to its wall time, short by fewer microseconds than there are
      sections, exactly when their sum fits the 32 bits the wall time is kept in. */
  lemma FrameAddsUp(frame: seq<nat>, freq: nat)
    requires freq > 0 && |frame| == SECTIONS
    ensures var wall, sum := ToUs(Sum(frame), freq), Sum(AllUs(frame, freq));
            sum <= wall < sum + SECTIONS <==> sum <= UINT32_MAX
  {
    MicrosOfSum(frame, freq);
    SumKept(frame, freq);
  }

  /** Two sections of over an hour each do not fit; one of them alone does, cut off as its frame is. */
  lemma OverlongFrames()
    ensures var two: seq<nat> := Zeros()[0 := 4000000000][1 := 4000000000];
            Sum(AllUs(two, 1000000)) > ToUs(Sum(two), 1000000)
    ensures var one: seq<nat> := Zeros()[0 := 5000000000];
            Sum(AllUs(one, 1000000)) == ToUs(Sum(one), 1000000) == UINT32_MAX
  {
    SumZero(Zeros());
    var one: seq<nat> := Zeros()[0 := 5000000000];
    SumUpdate(Zeros(), 0, 5000000000);
    assert AllUs(one, 1000000) == Zeros()[0 := UINT32_MAX];
    SumUpdate(Zeros(), 0, UINT32_MAX);
    var half: seq<nat> := Zeros()[0 := 4000000000];
    SumUpdate(Zeros(), 0, 4000000000);
    SumUpdate(half, 1, 4000000000);
    assert AllUs(half[1 := 4000000000], 1000000) == half[1 := 4000000000];
  }

  class Profiler {
    const stack: array<Section>
    var depth: nat
    var mark: nat
    const frame: array<nat>
    const total: array<nat>

    ghost predicate Valid()
      reads this, stack, frame, total
    {
      stack.Length == DEPTH && frame.Length == SECTIONS && total.Length == SECTIONS
      && frame != total
    }

    ghost function State(): (p: Profile)
      requires Valid()
      reads this, stack, frame, total
    {
      Profile(if depth <= DEPTH then Open(stack[..depth], 0) else Open(stack[..], depth - DEPTH),
              mark, frame[..], total[..])
    }

    constructor (now: nat)
      ensures Valid() && fresh(stack) && fresh(frame) && fresh(total)
      ensures State() == Profile(Open([], 0), now, Zeros(), Zeros())
    {
      stack := new Section[DEPTH](_ => EMU);
      frame := new nat[SECTIONS](_ => 0);
      total := new nat[SECTIONS](_ => 0);
      depth, mark := 0, now;
      new;
      assert frame[..] == Zeros() && total[..] == Zeros();
    }

    /** The time up to `t` goes to the innermost section. */
    method Charge(t: nat)
      requires Valid() && mark <= t && depth <= DEPTH
      modifies this`mark, frame
      ensures Valid() && State() == Charged(old(State()), t)
    {
      var top := if depth > 0 then stack[depth-1] else EMU;
      frame[top] := frame[top] + (t - mark);
      mark := t;
    }

    method BeginSection(t: nat, s: int)
      requires Valid() && mark <= t && (EMU < s < SECTIONS ==> depth <= DEPTH)
      modifies this, frame, stack
      ensures Valid() && State() == Applied(old(State()), Begin(t, s))
    {
      if s <= EMU || s >= SECTIONS {
        return;
      }
      Charge(t);
      if depth < DEPTH {
        stack[depth] := s;
        assert stack[..depth+1] == stack[..depth] + [s];
      }
      depth := depth + 1;
    }

    method EndSection(t: nat)
      requires Valid() && mark <= t
      modifies this, frame
      ensures Valid() && State() == Applied(old(State()), End(t))
    {
      if depth == 0 {
        return;
      }
      if depth <= DEPTH {
        Charge(t);
        assert stack[..depth][..depth-1] == stack[..depth-1];
      }
      depth := depth - 1;
    }

    /** The frame's ticks join the totals. */
    method TotalUp(freq: nat) returns (ticks: nat, us: seq<nat>)
      requires Valid() && freq > 0
      modifies total
      ensures Valid() && total[..] == Added(old(total[..]), frame[..])
      ensures ticks == Sum(frame[..]) && us == AllUs(frame[..], freq)
    {
      ghost var f, before := frame[..], total[..];
      us, ticks := [], 0;
      var i := 0;
      while i < SECTIONS
        invariant i <= SECTIONS && ticks == Sum(f[..i]) && us == AllUs(f[..i], freq)
        invariant forall j :: 0 <= j < i ==> total[j] == before[j] + f[j]
        invariant forall j :: i <= j < SECTIONS ==> total[j] == before[j]
      {
        assert f[..i+1][..i] == f[..i];
        ticks := ticks + frame[i];
        total[i] := total[i] + frame[i];
        us := us + [ToUs(frame[i], freq)];
        i := i + 1;
      }
      assert f[..i] == f;
    }

    method ClearFrame()
      requires Valid()
      modifies frame
      ensures Valid() && frame[..] == Zeros()
    {
      forall j | 0 <= j < SECTIONS {
        frame[j] := 0;
      }
    }

    /** A frame is over: its wall and busy time and its sections, in microseconds. */
    method EndFrame(t: nat, freq: nat) returns (wall: nat, busy: nat, us: seq<nat>)
      requires Valid() && mark <= t && freq > 0 && depth <= DEPTH
      modifies this, frame, total
      ensures Valid() && State() == Applied(old(State()), FrameEnd(t))
      ensures var f := Charged(old(State()), t).frame;
              us == AllUs(f, freq) && wall == ToUs(Sum(f), freq) && busy == ToUs(Busy(f), freq)
    {
      Charge(t);
      var ticks;
      ticks, us := TotalUp(freq);
      wall := ToUs(ticks, freq);
      SumAtLeast(frame[..], SLEEP);
      busy := ToUs(ticks - frame[SLEEP], freq);
      ClearFrame();
    }
  }

  /** Everything but sleeping. */
  function Busy(frame: seq<nat>): nat
    requires |frame| == SECTIONS
  {
    SumAtLeast(frame, SLEEP);
    Sum(frame) - frame[SLEEP]
  }

  lemma {:induction false} SumAtLeast(a: seq<nat>, i: nat)
    requires i < |a|
    ensures a[i] <= Sum(a)
  {
    if i < |a| - 1 {
      SumAtLeast(a[..|a|-1], i);
    }
  }

  /** A frame is busy for all but what it slept, section 5; and a time is the whole microseconds it
      comes to, at most what 32 bits hold. */
  lemma BusyIs(frame: seq<nat>)
    requires |frame| == 9
    ensures Busy(frame) + frame[5] == Sum(frame)
  {
  }

  lemma ToUsIs(ticks: nat, freq: nat)
    requires freq > 0
    ensures ToUs(ticks, freq) <= 4294967295 && freq * ToUs(ticks, freq) <= ticks * 1000000
    ensures ToUs(ticks, freq) < 4294967295 ==> ticks * 1000000 < freq * ToUs(ticks, freq) + freq
  {
    var us := Micros(ticks, freq);
    assert ticks * 1000000 == freq * us + ticks * 1000000 % freq;
    Mono(freq, UINT32_MAX, us);
  }
}
