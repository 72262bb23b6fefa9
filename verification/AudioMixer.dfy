/**
 The mixer: three sample rings advanced by the processor and drained at the host rate,
 mixed, limited to 16 bits, and handed on. The filter and the mixing weights are an
 arbitrary function of what is heard, of the size a mix of 32-bit sums can have.
 */
module AudioMixer {
  import opened Numbers
  import opened AudioRing

  // ---- The limiter ---------------------------------------------------------------------

  const UNITY: int := 0x1_0000
  const PEAK: int := 32767

  /** VERA's sum shifted by 13, the YM2151's by 15 and the MIDI synth's by 12, each from 32 bits. */
  type Level = m: int | -851968 <= m <= 851968

  datatype Mix = Mix(l: Level, r: Level)

  function Abs(x: int): nat {
    if x < 0 then -x else x
  }

  function Amp(m: Mix): nat {
    if Abs(m.l) > Abs(m.r) then Abs(m.l) else Abs(m.r)
  }

  /** The limiter for this mix: brought down as far as the mix needs. */
  function Lowered(limiter: nat, m: Mix): nat {
    if Amp(m) > PEAK
    then var needed := PEAK * UNITY / Amp(m); if needed < limiter then needed else limiter
    else limiter
  }

  /** And after it: creeping back up. */
  function Recovered(limiter: nat): nat {
    if limiter < UNITY then limiter + 1 else limiter
  }

  /** The upper half of a 32-bit product, read as a signed 16-bit number. */
  function Upper(p: int): int {
    var upper := p % WRAP / UNITY;
    if upper < 0x8000 then upper else upper - UNITY
  }

  function Scaled(x: Level, limiter: nat): int {
    Upper(x * limiter)
  }

  lemma Shrinks(amp: nat, x: nat, limiter: nat)
    requires 0 < amp && x <= amp && limiter <= PEAK * UNITY / amp
    ensures x * limiter <= PEAK * UNITY
  {
    var q := PEAK * UNITY / amp;
    assert amp * q <= PEAK * UNITY;
    assert x * limiter <= x * q <= amp * q;
  }

  lemma UnityShrinks(x: nat, limiter: nat)
    requires x <= PEAK && limiter <= UNITY
    ensures x * limiter <= PEAK * UNITY
  {
    Mono(x, limiter, UNITY);
  }

  lemma UpperExact(p: int)
    requires -PEAK * UNITY <= p <= PEAK * UNITY
    ensures Upper(p) == p / UNITY && -PEAK <= Upper(p) <= PEAK
  {
    if p >= 0 {
      assert p % WRAP == p;
    } else {
      assert p % WRAP == p + WRAP;
      assert (p + WRAP) / UNITY == p / UNITY + UNITY;
    }
  }

  lemma FitsExactly(x: Level, limiter: nat)
    requires Abs(x) * limiter <= PEAK * UNITY
    ensures Scaled(x, limiter) == x * limiter / UNITY && -PEAK <= Scaled(x, limiter) <= PEAK
  {
    var p: int, q: int := x * limiter, Abs(x) * limiter;
    assert p == q || p == -q;
    UpperExact(p);
  }

  lemma LoweredFits(limiter: nat, m: Mix, x: Level)
    requires limiter <= UNITY && Abs(x) <= Amp(m)
    ensures Abs(x) * Lowered(limiter, m) <= PEAK * UNITY
  {
    if Amp(m) > PEAK {
      Shrinks(Amp(m), Abs(x), Lowered(limiter, m));
    } else {
      UnityShrinks(Abs(x), limiter);
    }
  }

  /** Neither channel is ever cut off: each is exactly the mix scaled by the limiter, and fits. */
  lemma LimiterExact(limiter: nat, m: Mix, x: Level, low: nat)
    requires limiter <= UNITY && (x == m.l || x == m.r) && low == Lowered(limiter, m)
    ensures Scaled(x, low) == x * low / UNITY && -PEAK <= Scaled(x, low) <= PEAK
  {
    LoweredFits(limiter, m, x);
    FitsExactly(x, low);
  }

  /** A limiter at which neither channel of the mix leaves sixteen bits. */
  predicate Enough(n: nat, m: Mix) {
    Abs(m.l) * n <= 32767 * 65536 && Abs(m.r) * n <= 32767 * 65536
  }

  lemma TooMuch(amp: nat, n: nat)
    requires 0 < amp && PEAK * UNITY / amp < n
    ensures amp * n > PEAK * UNITY
  {
    var q := PEAK * UNITY / amp;
    assert PEAK * UNITY < amp * q + amp;
    Mono(amp, q + 1, n);
    assert amp * (q + 1) == amp * q + amp;
  }

  /** The limiter is brought down exactly as far as the mix needs: to the greatest value it can keep
      at which both channels fit. */
  lemma LoweredIsGreatest(limiter: nat, m: Mix)
    requires limiter <= UNITY
    ensures Lowered(limiter, m) <= limiter && Enough(Lowered(limiter, m), m)
    ensures forall n: nat :: n <= limiter && Enough(n, m) ==> n <= Lowered(limiter, m)
  {
    LoweredFits(limiter, m, m.l);
    LoweredFits(limiter, m, m.r);
    forall n: nat | Lowered(limiter, m) < n <= limiter
      ensures !Enough(n, m)
    {
      TooMuch(Amp(m), n);
    }
  }

  predicate Quiet(m: Mix) {
    -32767 <= m.l <= 32767 && -32767 <= m.r <= 32767
  }

  /** A mix that fits as it is leaves the limiter alone, and at unity it comes out unchanged. */
  lemma QuietUntouched(limiter: nat, m: Mix, x: Level)
    requires limiter <= UNITY && Quiet(m) && (x == m.l || x == m.r)
    ensures Lowered(limiter, m) == limiter
    ensures limiter == 65536 ==> Scaled(x, Lowered(limiter, m)) == x
  {
    if limiter == 65536 {
      LimiterExact(limiter, m, x, limiter);
      assert x * limiter / UNITY == x;
    }
  }

  /** The limiter creeps back by one a sample, as far as unity. */
  lemma RecoversByOne(limiter: nat)
    requires limiter <= UNITY
    ensures Recovered(limiter) == if limiter == 65536 then limiter else limiter + 1
  {
  }
}
