/**
 The audio engine: `Step` lets the processor run the heads ahead, rendering whenever the
 YM2151 ring is full; `Render` catches the chips up and mixes what both rings can give.
 What is heard is specified on the chips' own endless streams, with no rings in it.
 */
module AudioEngine {
  import opened Numbers
  import opened AudioLevels
  import opened AudioRing
  import opened AudioMixer

  datatype Sound = Sound(l: int, r: int)
  datatype VeraSound = VeraSound(psg: Sound, pcm: Sound)

  /** One host sample's worth of input: at this rate VERA and the MIDI synth are not resampled. */
  datatype Heard = Heard(vera: VeraSound, ym: seq<Sound>, phase: nat, fs: Sound)

  datatype Chips = Chips(vera: nat -> VeraSound, ym: nat -> Sound, fs: nat -> Sound, mix: Heard -> Mix)

  datatype Reads = Reads(vera: nat, ym: nat, fs: nat)

  function HeardAt(c: Chips, r: Reads): Heard {
    Heard(c.vera(r.vera / FRAME), FourFrom(c.ym, r.ym / FRAME), r.ym / 0x1_0000 % 0x100, c.fs(r.fs / FRAME))
  }

  function NextReads(r: Reads): Reads {
    Reads(r.vera + VERA_HOST, r.ym + YM_HOST, r.fs + VERA_HOST)
  }

  function Limited(limiter: nat, m: Mix): (int, int) {
    var low := Lowered(limiter, m);
    (Scaled(m.l, low), Scaled(m.r, low))
  }

  datatype Sounded = Sounded(out: seq<(int, int)>, limiter: nat)

  /** `n` host samples from these read positions. */
  function Sounding(c: Chips, r: Reads, limiter: nat, n: nat): Sounded
    decreases n
  {
    if n == 0 then Sounded([], limiter)
    else
      var m := c.mix(HeardAt(c, r));
      var rest := Sounding(c, NextReads(r), Recovered(Lowered(limiter, m)), n - 1);
      Sounded([Limited(limiter, m)] + rest.out, rest.limiter)
  }

  /** What has been put out, followed by what the rest adds. */
  function Onto(out: seq<(int, int)>, rest: Sounded): Sounded {
    Sounded(out + rest.out, rest.limiter)
  }

  /** What is to come out of a mix in progress, and where the reads and heads will be after it. */
  datatype Plan = Plan(sounded: Sounded, veraRead: nat, ymRead: nat, veraHead: nat, ymHead: nat)

  datatype Mixing = Mixing(levels: Levels, sounded: Sounded)

  /** What rendering from these levels and positions does: everything both rings can give is
      heard, exactly as the chips' streams have it. */
  function RenderedFrom(c: Chips, l: Levels, r: Reads, limiter: nat, out: seq<(int, int)>): Mixing {
    if Ready(l) then Mixing(Rendered(l), Onto(out, Sounding(c, r, limiter, Count(l))))
    else Mixing(l, Sounded(out, limiter))
  }

  lemma {:induction false} SoundingLength(c: Chips, r: Reads, limiter: nat, n: nat)
    ensures |Sounding(c, r, limiter, n).out| == n
    decreases n
  {
    if n > 0 {
      SoundingLength(c, NextReads(r), Recovered(Lowered(limiter, c.mix(HeardAt(c, r)))), n - 1);
    }
  }

  lemma PhaseOf(p: nat)
    ensures p % WRAP / 0x1_0000 % 0x100 == p / 0x1_0000 % 0x100
  {
    var q, s := p / WRAP, p % WRAP;
    var t, u := s / 0x1_0000, s % 0x1_0000;
    var v, w := t / 0x100, t % 0x100;
    DivIs(p, 0x1_0000, 0x1_0000 * q + t, u);
    DivIs(0x1_0000 * q + t, 0x100, 0x100 * q + v, w);
  }

  class Engine {
    const chips: Chips
    const vera: Ring<VeraSound>
    const ym: Ring<Sound>
    const fs: Ring<Sound>
    var limiter: nat
    var out: seq<(int, int)>

    ghost predicate Distinct()
    {
      ym != fs && ym.buf != fs.buf
      && vera.chip == chips.vera && ym.chip == chips.ym && fs.chip == chips.fs
    }

    ghost predicate RingsValid()
      reads vera, vera.buf, ym, ym.buf, fs, fs.buf
    {
      vera.Valid() && ym.Valid() && fs.Valid() && fs.read == vera.read && fs.head == vera.head
    }

    ghost function At(): Levels
      requires vera.read <= vera.head && ym.read <= ym.head
      reads vera, ym
    {
      Levels(vera.head - vera.read, ym.head - ym.read)
    }

    ghost function Position(): Reads
      reads vera, ym, fs
    {
      Reads(vera.read, ym.read, fs.read)
    }

    ghost predicate Valid()
      reads this, vera, vera.buf, ym, ym.buf, fs, fs.buf
    {
      Distinct() && RingsValid() && Coupled(At()) && limiter <= UNITY
    }

    constructor (chips: Chips)
      ensures Valid() && this.chips == chips
      ensures fresh(vera) && fresh(vera.buf) && fresh(ym) && fresh(ym.buf) && fresh(fs) && fresh(fs.buf)
      ensures Position() == Reads(0, 0, 0) && At() == Levels(0, 0) && limiter == UNITY && out == []
    {
      this.chips := chips;
      vera := new Ring<VeraSound>(chips.vera);
      ym := new Ring<Sound>(chips.ym);
      fs := new Ring<Sound>(chips.fs);
      limiter, out := UNITY, [];
      new;
      EmptyCoupled();
    }

    /** Every ring is caught up and can give `n` more host samples. */
    ghost predicate Enough(n: nat)
      reads vera, ym, fs
    {
      vera.read + n * VERA_HOST + TAPS * FRAME <= vera.head && vera.last == vera.head / FRAME
      && ym.read + n * YM_HOST + TAPS * FRAME <= ym.head && ym.last == ym.head / FRAME
      && fs.read + n * VERA_HOST + TAPS * FRAME <= fs.head && fs.last == fs.head / FRAME
    }

    method Listen() returns (h: Heard)
      requires Distinct() && RingsValid() && Enough(0)
      ensures h == HeardAt(chips, Position())
    {
      var v := vera.Here();
      var y := ym.Taps();
      var f := fs.Here();
      PhaseOf(ym.read);
      h := Heard(v, y, ym.rd / 0x1_0000 % 0x100, f);
    }

    /** Bring the limiter down as far as this mix needs. */
    method Limit(m: Mix)
      modifies this`limiter
      ensures limiter == Lowered(old(limiter), m) && limiter <= old(limiter)
    {
      var amp := if Abs(m.l) > Abs(m.r) then Abs(m.l) else Abs(m.r);
      if amp > PEAK {
        var needed := PEAK * UNITY / amp;
        limiter := if needed < limiter then needed else limiter;
      }
    }

    /** Let it creep back up. */
    method Recover()
      requires limiter <= UNITY
      modifies this`limiter
      ensures limiter == Recovered(old(limiter)) && limiter <= UNITY
    {
      if limiter < UNITY {
        limiter := limiter + 1;
      }
    }

    method Emit(m: Mix)
      requires limiter <= UNITY
      modifies this
      ensures limiter == Recovered(Lowered(old(limiter), m)) && limiter <= UNITY
      ensures out == old(out) + [Limited(old(limiter), m)]
    {
      Limit(m);
      out := out + [(Scaled(m.l, limiter), Scaled(m.r, limiter))];
      Recover();
    }

    /** Move one source on by `n` host samples. */
    method ConsumeVera(n: nat)
      requires Distinct() && RingsValid() && vera.read + n * VERA_HOST <= vera.head
      requires vera.last == fs.last == vera.head / FRAME
      modifies vera, fs
      ensures RingsValid() && vera.read == old(vera.read) + n * VERA_HOST
      ensures vera.head == old(vera.head) && vera.last == old(vera.last) && fs.last == old(fs.last)
    {
      vera.Consume(n * VERA_HOST);
      fs.Consume(n * VERA_HOST);
    }

    method ConsumeYm(n: nat)
      requires Distinct() && RingsValid() && ym.read + n * YM_HOST <= ym.head && ym.last == ym.head / FRAME
      modifies ym
      ensures RingsValid() && ym.read == old(ym.read) + n * YM_HOST
      ensures ym.head == old(ym.head) && ym.last == old(ym.last)
    {
      ym.Consume(n * YM_HOST);
    }

    method ConsumeOne(ghost left: nat)
      requires Distinct() && RingsValid() && Enough(left + 1)
      modifies vera, ym, fs
      ensures RingsValid() && Enough(left) && vera.head == old(vera.head) && ym.head == old(ym.head)
      ensures Position() == NextReads(old(Position()))
    {
      ConsumeVera(1);
      ConsumeYm(1);
    }

    method MixOne(ghost left: nat)
      requires Distinct() && RingsValid() && limiter <= UNITY && Enough(left + 1)
      modifies this, vera, ym, fs
      ensures RingsValid() && limiter <= UNITY && Enough(left)
      ensures vera.head == old(vera.head) && ym.head == old(ym.head)
      ensures Position() == NextReads(old(Position()))
      ensures limiter == Recovered(Lowered(old(limiter), chips.mix(HeardAt(chips, old(Position())))))
      ensures out == old(out) + [Limited(old(limiter), chips.mix(HeardAt(chips, old(Position()))))]
    {
      var h := Listen();
      Emit(chips.mix(h));
      ConsumeOne(left);
    }

    /** What is out and what `left` more host samples will add, and where they will leave the rings. */
    ghost function PlanFor(left: nat): Plan
      reads this, vera, ym, fs
    {
      Plan(Onto(out, Sounding(chips, Position(), limiter, left)),
           vera.read + left * VERA_HOST, ym.read + left * YM_HOST, vera.head, ym.head)
    }

    /** In the middle of a mix, `left` host samples before its end. */
    ghost predicate Underway(left: nat, plan: Plan)
      reads this, vera, vera.buf, ym, ym.buf, fs, fs.buf
    {
      Distinct() && RingsValid() && limiter <= UNITY && Enough(left) && PlanFor(left) == plan
    }

    /** One host sample of the `left + 1` still due. */
    method MixNext(ghost left: nat, ghost plan: Plan)
      requires Underway(left + 1, plan)
      modifies this, vera, ym, fs
      ensures Underway(left, plan)
    {
      ghost var before, rest := out, Sounding(chips, Position(), limiter, left + 1);
      MixOne(left);
      StillLess(before, rest, out, Sounding(chips, Position(), limiter, left));
    }

    lemma MixEnds(plan: Plan)
      requires Underway(0, plan)
      ensures Sounded(out, limiter) == plan.sounded && Enough(0)
      ensures vera.read == plan.veraRead && ym.read == plan.ymRead
      ensures vera.head == plan.veraHead && ym.head == plan.ymHead
    {
      assert out + [] == out;
    }

    method MixLoop(n: nat, ghost plan: Plan)
      requires Underway(n, plan)
      modifies this, vera, ym, fs
      ensures Underway(0, plan)
    {
      var i := 0;
      while i < n
        invariant i <= n && Underway(n - i, plan)
      {
        i := i + 1;
        MixNext(n - i, plan);
      }
    }

    method MixAll(n: nat)
      requires Distinct() && RingsValid() && limiter <= UNITY && Enough(n)
      modifies this, vera, ym, fs
      ensures RingsValid() && limiter <= UNITY && Enough(0)
      ensures vera.head == old(vera.head) && ym.head == old(ym.head)
      ensures vera.read == old(vera.read) + n * VERA_HOST && ym.read == old(ym.read) + n * YM_HOST
      ensures Sounded(out, limiter) == Onto(old(out), Sounding(chips, old(Position()), old(limiter), n))
    {
      ghost var plan := PlanFor(n);
      MixLoop(n, plan);
      MixEnds(plan);
    }

    // ---- Rendering and stepping -----------------------------------------------------

    method CatchUpAll()
      requires Valid()
      modifies vera, vera.buf, ym, ym.buf, fs, fs.buf
      ensures Valid() && Position() == old(Position()) && At() == old(At())
      ensures vera.head == old(vera.head) && ym.head == old(ym.head)
      ensures vera.last == vera.head / FRAME && ym.last == ym.head / FRAME && fs.last == fs.head / FRAME
    {
      vera.CatchUp();
      ym.CatchUp();
      fs.CatchUp();
    }

    /** The levels the read and head positions show. */
    method Measure() returns (l: Levels)
      requires Distinct() && RingsValid()
      ensures l == At()
    {
      var v := vera.Filled();
      var y := ym.Filled();
      l := Levels(v, y);
    }

    /** A source too far behind gives up one host sample more; the YM2151 never is (`YmNeverSkips`). */
    method Skip(l: Levels, n: nat)
      requires Distinct() && RingsValid() && Ready(l) && n == Count(l) && Coupled(l)
      requires At() == Levels(l.vera - n * VERA_HOST, l.ym - n * YM_HOST) && Enough(0)
      modifies vera, ym, fs
      ensures RingsValid() && At() == Rendered(l) && vera.head == old(vera.head) && ym.head == old(ym.head)
      ensures Position() == Reads(old(vera.read) + (TakenVera(l) - n) * VERA_HOST, old(ym.read),
                                  old(fs.read) + (TakenVera(l) - n) * VERA_HOST)
    {
      RenderedEnough(l);
      YmNeverSkips(l);
      if HostVera(l) - n > 1 {
        ConsumeVera(1);
      }
    }

    ghost function Now(): Mixing
      requires vera.read <= vera.head && ym.read <= ym.head
      reads this, vera, ym
    {
      Mixing(At(), Sounded(out, limiter))
    }

    /** Mix what the caught-up rings at these levels can give. */
    method MixReady(l: Levels)
      requires Valid() && l == At() && Ready(l)
      requires vera.last == vera.head / FRAME && ym.last == ym.head / FRAME && fs.last == fs.head / FRAME
      modifies this, vera, ym, fs
      ensures Valid() && Now() == RenderedFrom(chips, l, old(Position()), old(limiter), old(out))
      ensures vera.head == old(vera.head) && ym.head == old(ym.head)
    {
      var n := Count(l);
      RenderedEnough(l);
      RenderCoupled(l);
      MixAll(n);
      Skip(l, n);
    }

    method MixIfReady()
      requires Valid()
      requires vera.last == vera.head / FRAME && ym.last == ym.head / FRAME && fs.last == fs.head / FRAME
      modifies this, vera, ym, fs
      ensures Valid() && Now() == RenderedFrom(chips, old(At()), old(Position()), old(limiter), old(out))
      ensures vera.head == old(vera.head) && ym.head == old(ym.head)
    {
      var l := Measure();
      if Ready(l) {
        MixReady(l);
      }
    }

    method Render()
      requires Valid()
      modifies this, vera, vera.buf, ym, ym.buf, fs, fs.buf
      ensures Valid() && Now() == RenderedFrom(chips, old(At()), old(Position()), old(limiter), old(out))
      ensures vera.head == old(vera.head) && ym.head == old(ym.head)
    {
      CatchUpAll();
      MixIfReady();
    }

    method AdvanceAll(clocks: nat)
      requires Valid() && clocks <= Room(At())
      modifies vera, ym, fs
      ensures Valid() && At() == Stepped(old(At()), clocks) && Position() == old(Position())
      ensures vera.head == old(vera.head) + clocks * VERA_CLOCK && ym.head == old(ym.head) + clocks * YM_CLOCK
    {
      StepCoupled(At(), clocks);
      NoLap(Stepped(At(), clocks));
      vera.Advance(clocks * VERA_CLOCK);
      ym.Advance(clocks * YM_CLOCK);
      fs.Advance(clocks * VERA_CLOCK);
    }

    /** How many clocks fit before the YM2151 ring is one sample short of full. */
    method RoomLeft() returns (most: nat)
      requires Valid()
      ensures most == Room(At())
    {
      var filled := ym.Filled();
      var free: int := 0 - filled - FRAME;
      assert free % WRAP == free + WRAP == FULL - filled;
      most := free % WRAP / YM_CLOCK;
    }

    /** The processor ran for `clocks`: the heads move by exactly that much, whatever had to
        be rendered on the way, and the loop ends because a render makes room. */
    method Step(clocks: nat)
      requires Valid()
      modifies this, vera, vera.buf, ym, ym.buf, fs, fs.buf
      ensures Valid()
      ensures vera.head == old(vera.head) + clocks * VERA_CLOCK && ym.head == old(ym.head) + clocks * YM_CLOCK
    {
      var left: nat := clocks;
      ghost var done := 0;
      while left > 0
        invariant done + left == clocks && Valid()
        invariant vera.head == old(vera.head) + done * VERA_CLOCK
        invariant ym.head == old(ym.head) + done * YM_CLOCK
        decreases left, ym.head - ym.read
      {
        var most := RoomLeft();
        var now := if left < most then left else most;
        AdvanceAll(now);
        left, done := left - now, done + now;
        if left > 0 {
          FullIsReady(At());
          Render();
        }
      }
    }
  }

  lemma StillLess(out: seq<(int, int)>, rest: Sounded, out': seq<(int, int)>, rest': Sounded)
    requires rest.out != [] && out' == out + [rest.out[0]]
    requires rest == Sounded([rest.out[0]] + rest'.out, rest'.limiter)
    ensures Onto(out', rest') == Onto(out, rest)
  {
    assert out' + rest'.out == out + ([rest.out[0]] + rest'.out);
  }
}
