/**
 How full the sample rings get. A level is the distance from a read position to its head,
 in 2^-24 of a source sample. The VERA and MIDI rings move in lockstep; the YM2151 ring
 runs at its own rate, and only its level bounds how far the processor may run ahead.
 The machine runs at 8 MHz and the host at the fixed 48828 Hz.
 */
module AudioLevels {
  const FRAME: nat := 0x100_0000
  const RING: nat := 256
  const TAPS: nat := 4

  /** Ring positions per processor clock, and per host sample. */
  const VERA_CLOCK: nat := 102400
  const YM_CLOCK: nat := 117294
  const VERA_HOST: nat := 16777258
  const YM_HOST: nat := 19217585
  const HOST_RATE: nat := 48828

  lemma TheSourcesConstants()
    ensures HOST_RATE == 25000000 / 512
    ensures VERA_CLOCK == 25000000 * FRAME / 512 / 8 / 1000000
    ensures YM_CLOCK == 3579545 * FRAME / 64 / 8 / 1000000
    ensures VERA_HOST == 25000000 * FRAME / 512 / HOST_RATE
    ensures YM_HOST == 3579545 * FRAME / 64 / HOST_RATE
  {
  }

  datatype Levels = Levels(vera: nat, ym: nat)

  /** The most a ring may hold: one sample short of a lap. */
  const FULL: nat := (RING - 1) * FRAME

  /** How many clocks may pass before the YM ring is full. */
  function Room(l: Levels): nat
    requires l.ym <= FULL
  {
    (FULL - l.ym) / YM_CLOCK
  }

  function Stepped(l: Levels, clocks: nat): Levels {
    Levels(l.vera + clocks * VERA_CLOCK, l.ym + clocks * YM_CLOCK)
  }

  predicate Ready(l: Levels) {
    l.vera >= TAPS * FRAME && l.ym >= TAPS * FRAME
  }

  /** Whole host samples each source could give, keeping enough for the filter. */
  function HostVera(l: Levels): nat
    requires Ready(l)
  {
    (l.vera - TAPS * FRAME) / VERA_HOST
  }

  function HostYm(l: Levels): nat
    requires Ready(l)
  {
    (l.ym - TAPS * FRAME) / YM_HOST
  }

  function Count(l: Levels): nat
    requires Ready(l)
  {
    if HostYm(l) < HostVera(l) then HostYm(l) else HostVera(l)
  }

  /** Host samples taken from each source: one more from a source that is too far behind. */
  function TakenVera(l: Levels): nat
    requires Ready(l)
  {
    Count(l) + if HostVera(l) - Count(l) > 1 then 1 else 0
  }

  function TakenYm(l: Levels): nat
    requires Ready(l)
  {
    Count(l) + if HostYm(l) - Count(l) > 1 then 1 else 0
  }

  function Rendered(l: Levels): Levels
    requires Ready(l)
  {
    RenderedEnough(l);
    Levels(l.vera - TakenVera(l) * VERA_HOST, l.ym - TakenYm(l) * YM_HOST)
  }

  lemma RenderedEnough(l: Levels)
    requires Ready(l)
    ensures TakenVera(l) * VERA_HOST + TAPS * FRAME <= l.vera
    ensures TakenYm(l) * YM_HOST + TAPS * FRAME <= l.ym
  {
    assert HostVera(l) * VERA_HOST <= l.vera - TAPS * FRAME;
    assert HostYm(l) * YM_HOST <= l.ym - TAPS * FRAME;
  }

  // ---- The drift between the two rates --------------------------------------------------

  /** Stepping does not change this; rendering moves it by far less than it corrects. */
  function Drift(l: Levels): int {
    YM_CLOCK * l.vera - VERA_CLOCK * l.ym
  }

  const MOST_DRIFT: int := 5_000_000_000_000

  ghost predicate Coupled(l: Levels) {
    l.ym <= FULL && 0 <= Drift(l) <= MOST_DRIFT
  }

  lemma EmptyCoupled()
    ensures Coupled(Levels(0, 0))
  {
  }

  /** While the coupling holds no ring is lapped: the VERA ring is bounded through the YM ring. */
  lemma NoLap(l: Levels)
    requires Coupled(l)
    ensures l.vera <= FULL && l.ym <= FULL
  {
  }

  lemma StepCoupled(l: Levels, clocks: nat)
    requires Coupled(l) && clocks <= Room(l)
    ensures Coupled(Stepped(l, clocks))
  {
  }

  /** The YM source is never the one left behind. */
  lemma YmNeverSkips(l: Levels)
    requires Coupled(l) && Ready(l)
    ensures HostYm(l) - Count(l) <= 1
  {
  }

  /** A render keeps the coupling and always makes room for the processor to run on. */
  lemma RenderCoupled(l: Levels)
    requires Coupled(l) && Ready(l)
    ensures Coupled(Rendered(l)) && Rendered(l).ym <= 6 * FRAME
  {
    var n := Count(l);
    var v, m := l.vera - n * VERA_HOST, l.ym - n * YM_HOST;
    YmNeverSkips(l);
    RenderedEnough(l);
    assert n <= HostYm(l) && HostYm(l) * YM_HOST <= FULL;
    assert n <= 255;
    if n == HostYm(l) {
      assert TAPS * FRAME <= m < TAPS * FRAME + YM_HOST;
    } else {
      assert TAPS * FRAME <= v < TAPS * FRAME + VERA_HOST;
      assert m >= TAPS * FRAME + YM_HOST;
    }
  }

  /** What one render gives is less than a lap of the ring. */
  lemma RenderIsShort(l: Levels)
    requires Coupled(l) && Ready(l)
    ensures Count(l) < RING
  {
    assert HostYm(l) * YM_HOST <= FULL;
  }

  /** A ring with no room left has enough to render, and rendering it empties it. */
  lemma FullIsReady(l: Levels)
    requires Coupled(l) && l.ym + YM_CLOCK > FULL
    ensures Ready(l) && Rendered(l).ym <= 6 * FRAME && Room(Rendered(l)) > 0
  {
    RenderCoupled(l);
  }
}
