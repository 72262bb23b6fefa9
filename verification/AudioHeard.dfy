/**
 What is heard, sample by sample: where on the chips' streams each host sample is taken from,
 how many there are, and how loud they come out.
 */
module AudioHeard {
  import opened Numbers
  import opened AudioLevels
  import opened AudioMixer
  import opened AudioEngine

  // ---- How many -------------------------------------------------------------------------------

  /** Both rings can give `n` host samples and keep the four samples the filter needs. */
  predicate CanGive(l: Levels, n: nat) {
    VeraCanGive(l, n) && n * YM_HOST + 4 * 0x100_0000 <= l.ym
  }

  predicate VeraCanGive(l: Levels, n: nat) {
    n * VERA_HOST + 4 * 0x100_0000 <= l.vera
  }

  /** A render gives as many host samples as both rings can, and then drops one of VERA's if that
      is still two or more ahead. */
  lemma RenderGives(l: Levels)
    requires Coupled(l)
    ensures Ready(l) <==> CanGive(l, 0)
    ensures Ready(l) ==>
              CanGive(l, Count(l)) && !CanGive(l, Count(l) + 1)
              && Rendered(l).ym == l.ym - Count(l) * YM_HOST
              && Rendered(l).vera == l.vera - (Count(l) + if VeraCanGive(l, Count(l) + 2) then 1 else 0) * VERA_HOST
  {
    if Ready(l) {
      YmNeverSkips(l);
    }
  }

  /** The processor may run on until one more clock would leave a ring less than a sample short of full. */
  lemma RoomIsMost(l: Levels)
    requires Coupled(l)
    ensures l.ym + Room(l) * YM_CLOCK <= 255 * 0x100_0000 < l.ym + (Room(l) + 1) * YM_CLOCK
  {
  }

  // ---- From where -----------------------------------------------------------------------------

  function After(r: Reads, i: nat): Reads {
    Reads(r.vera + i * VERA_HOST, r.ym + i * YM_HOST, r.fs + i * VERA_HOST)
  }

  /** Host sample `i` is mixed at `i` steps from the read positions, at the limiter the ones before
      it have left, and scaled by it channel by channel. */
  lemma {:induction false} SoundingAt(c: Chips, r: Reads, limiter: nat, n: nat, i: nat)
    requires i < n
    ensures |Sounding(c, r, limiter, n).out| == n
    ensures Sounding(c, r, limiter, n).out[i]
            == Limited(Sounding(c, r, limiter, i).limiter, c.mix(HeardAt(c, After(r, i))))
    decreases n
  {
    SoundingLength(c, r, limiter, n);
    var next := Recovered(Lowered(limiter, c.mix(HeardAt(c, r))));
    if i > 0 {
      SoundingAt(c, NextReads(r), next, n - 1, i - 1);
      assert After(NextReads(r), i - 1) == After(r, i);
    } else {
      assert After(r, 0) == r;
    }
  }

  lemma LimitedIs(limiter: nat, m: Mix)
    requires limiter <= UNITY
    ensures var low := Lowered(limiter, m);
            Limited(limiter, m) == (m.l * low / 65536, m.r * low / 65536)
  {
    LimiterExact(limiter, m, m.l, Lowered(limiter, m));
    LimiterExact(limiter, m, m.r, Lowered(limiter, m));
  }

  /** What is heard at read positions: the samples they are in, four of them from the YM2151's on, and
      how far into the first it is, in 256ths. */
  lemma HeardWhere(c: Chips, r: Reads) returns (v: nat, y: nat, f: nat)
    ensures v * 0x100_0000 <= r.vera < (v + 1) * 0x100_0000
    ensures f * 0x100_0000 <= r.fs < (f + 1) * 0x100_0000
    ensures var h := HeardAt(c, r);
            && h.vera == c.vera(v) && h.fs == c.fs(f)
            && h.ym == [c.ym(y), c.ym(y + 1), c.ym(y + 2), c.ym(y + 3)] && h.phase < 256
            && y * 0x100_0000 + h.phase * 0x1_0000 <= r.ym < y * 0x100_0000 + (h.phase + 1) * 0x1_0000
  {
    v, y, f := r.vera / FRAME, r.ym / FRAME, r.fs / FRAME;
    var s, t := r.ym / 0x1_0000, r.ym % 0x1_0000;
    DivIs(r.ym, FRAME, s / 0x100, s % 0x100 * 0x1_0000 + t);
  }

  // ---- How loud ---------------------------------------------------------------------------------

  /** The first `n` mixes fit as they are. */
  predicate AllQuiet(c: Chips, r: Reads, n: nat)
    decreases n
  {
    n == 0 || (Quiet(c.mix(HeardAt(c, r))) && AllQuiet(c, NextReads(r), n - 1))
  }

  /** While the mixes stay quiet the limiter rises by one a sample, as far as unity. */
  lemma {:induction false} QuietRecovers(c: Chips, r: Reads, limiter: nat, n: nat)
    requires limiter <= 65536 && AllQuiet(c, r, n)
    ensures Sounding(c, r, limiter, n).limiter == if limiter + n < 65536 then limiter + n else 65536
    decreases n
  {
    if n > 0 {
      var m := c.mix(HeardAt(c, r));
      QuietUntouched(limiter, m, m.l);
      RecoversByOne(limiter);
      QuietRecovers(c, NextReads(r), Recovered(limiter), n - 1);
    }
  }

  /** And at unity they come out unchanged. */
  lemma {:induction false} QuietUnchanged(c: Chips, r: Reads, n: nat, i: nat)
    requires i < n && AllQuiet(c, r, n)
    ensures var m, s := c.mix(HeardAt(c, After(r, i))), Sounding(c, r, 65536, n);
            |s.out| == n && s.out[i] == (m.l, m.r)
    decreases n
  {
    var first := c.mix(HeardAt(c, r));
    SoundingAt(c, r, 65536, n, i);
    QuietUntouched(65536, first, first.l);
    QuietUntouched(65536, first, first.r);
    if i > 0 {
      QuietUnchanged(c, NextReads(r), n - 1, i - 1);
      assert After(NextReads(r), i - 1) == After(r, i);
    } else {
      assert After(r, 0) == r;
    }
  }
}
