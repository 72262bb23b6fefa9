/**
 One sample ring: a buffer of 256 samples with a read position, a head, and the last
 sample rendered. The positions wrap at 2^32, which is 256 samples of 2^-24 each. The
 chip behind the ring is a function from sample numbers to samples, so what a reader
 finds in the ring can be compared with what the chip made.
 */
module AudioRing {
  import opened AudioLevels

  const WRAP: nat := 0x1_0000_0000

  lemma Around(a: nat, b: nat)
    requires a <= b < a + WRAP
    ensures (b % WRAP - a % WRAP) % WRAP == b - a
  {
    assert b % WRAP == b - WRAP * (b / WRAP) && a % WRAP == a - WRAP * (a / WRAP);
    var d := b % WRAP - a % WRAP;
    assert d == (b - a) - WRAP * (b / WRAP - a / WRAP);
  }

  /** A wrapped position moved on, and the sample it has come to. */
  lemma Onward(p: nat, n: nat)
    ensures (p % WRAP + n) % WRAP == (p + n) % WRAP
    ensures p / FRAME <= (p + n) / FRAME
  {
  }

  /** The sample a position lies in, as an index into the ring. */
  lemma SlotOf(p: nat)
    ensures p % WRAP / FRAME == p / FRAME % RING
  {
    var q := p / WRAP;
    assert p == WRAP * q + p % WRAP;
    assert p / FRAME == RING * q + p % WRAP / FRAME;
  }

  lemma Slots(k: nat, w: nat)
    requires k <= w < k + RING
    ensures (w % RING - k % RING) % RING == w - k
  {
    assert w % RING == w - RING * (w / RING) && k % RING == k - RING * (k / RING);
    assert w % RING - k % RING == (w - k) - RING * (w / RING - k / RING);
  }

  class Ring<T(0)> {
    const buf: array<T>
    const chip: nat -> T
    var rd: nat
    var hd: nat
    var wr: nat
    ghost var read: nat      // the read position, never wrapped
    ghost var head: nat      // the head, never wrapped
    var last: nat            // the chip's own count: the last sample it rendered

    /** The ring holds the newest samples rendered, back to 255 before the last. */
    ghost predicate Holds()
      reads this, buf
    {
      buf.Length == RING
      && forall k: nat :: k <= last < k + RING ==> buf[k % RING] == chip(k)
    }

    ghost predicate Valid()
      reads this, buf
    {
      Holds()
      && rd == read % WRAP && hd == head % WRAP && wr == last % RING
      && read <= head <= read + FULL
      && read / FRAME <= last <= head / FRAME
    }

    ghost function Level(): nat
      reads this
      requires read <= head
    {
      head - read
    }

    /** Sample 0 is the silence the ring starts with. */
    constructor (chip: nat -> T)
      ensures Valid() && fresh(buf) && this.chip == chip && read == head == last == 0
    {
      this.chip := chip;
      buf := new T[RING](_ => chip(0));
      rd, hd, wr := 0, 0, 0;
      read, head, last := 0, 0, 0;
    }

    /** The distance from the read position to the head, across the wrap. */
    method Filled() returns (n: nat)
      requires Valid()
      ensures n == Level()
    {
      Around(read, head);
      n := (hd - rd) % WRAP;
    }

    method Advance(n: nat)
      requires Valid() && Level() + n <= FULL
      modifies this`hd, this`head
      ensures Valid() && head == old(head) + n
    {
      Onward(head, n);
      hd := (hd + n) % WRAP;
      head := head + n;
    }

    method Consume(n: nat)
      requires Valid() && n <= Level() && (read + n) / FRAME <= last
      modifies this`rd, this`read
      ensures Valid() && read == old(read) + n
    {
      Onward(read, n);
      rd := (rd + n) % WRAP;
      read := read + n;
    }

    /** The next sample the chip makes, into its slot; only the oldest is overwritten. */
    method Store(slot: nat)
      requires Holds() && slot == (last + 1) % RING
      modifies buf, this`last
      ensures Holds() && last == old(last) + 1
    {
      forall k: nat | k <= last < k + RING - 1
        ensures k % RING != slot
      {
        Slots(k, last + 1);
      }
      buf[slot] := chip(last + 1);
      last := last + 1;
    }

    /** Append `n` samples at `pos`, which must not run past the end of the buffer. */
    method RenderInto(pos: nat, n: nat)
      requires Holds() && pos == (last + 1) % RING && pos + n <= RING
      modifies buf, this`last
      ensures Holds() && last == old(last) + n
    {
      var j := 0;
      while j < n
        invariant j <= n && Holds() && last == old(last) + j
        invariant j < n ==> pos + j == (last + 1) % RING
      {
        Store(pos + j);
        j := j + 1;
        if j < n {
          NextSlot(last);
          InsideBuffer(pos, j);
        }
      }
    }

    /** Append `n` samples at `pos`, going on from the start of the buffer where it ends. */
    method RenderAround(pos: nat, n: nat)
      requires Holds() && pos == (last + 1) % RING && n < RING
      modifies buf, this`last
      ensures Holds() && last == old(last) + n
    {
      var at, left := pos, n;
      if pos + n > RING {
        StartsOver(last, pos);
        RenderInto(pos, RING - pos);
        left := n - (RING - pos);
        at := 0;
      }
      if left > 0 {
        RenderInto(at, left);
      }
    }

    /** Render everything up to the head. */
    method CatchUp()
      requires Valid()
      modifies buf, this`last, this`wr
      ensures Valid() && last == head / FRAME
    {
      SlotOf(head);
      Slots(last, head / FRAME);
      NextSlot(last);
      var pos := (wr + 1) % RING;
      var n := (hd / FRAME - wr) % RING;
      wr := hd / FRAME;
      RenderAround(pos, n);
    }

    lemma Held(k: nat)
      requires Holds() && k <= last < k + RING
      ensures buf[k % RING] == chip(k)
    {
    }

    /** The four samples the filter wants, starting with the one the read position is in. */
    method Taps() returns (t: seq<T>)
      requires Valid() && read + TAPS * FRAME <= head && last == head / FRAME
      ensures t == FourFrom(chip, read / FRAME)
    {
      ghost var k := read / FRAME;
      SlotOf(read);
      Within(read, head);
      var pos := rd / FRAME;
      t := [];
      var j := 0;
      while j < TAPS
        invariant j <= TAPS && |t| == j && pos == (k + j) % RING
        invariant forall i :: 0 <= i < j ==> t[i] == chip(k + i)
      {
        Held(k + j);
        t := t + [buf[pos]];
        NextSlot(k + j);
        pos := (pos + 1) % RING;
        j := j + 1;
      }
    }

    /** Just the sample the read position is in. */
    method Here() returns (t: T)
      requires Valid() && read + TAPS * FRAME <= head && last == head / FRAME
      ensures t == chip(read / FRAME)
    {
      SlotOf(read);
      Within(read, head);
      Held(read / FRAME);
      t := buf[rd / FRAME];
    }
  }

  function FourFrom<T>(chip: nat -> T, k: nat): seq<T> {
    [chip(k), chip(k + 1), chip(k + 2), chip(k + 3)]
  }

  lemma Within(read: nat, head: nat)
    requires read + TAPS * FRAME <= head <= read + FULL
    ensures read / FRAME + TAPS <= head / FRAME < read / FRAME + RING
  {
  }

  lemma NextSlot(k: nat)
    ensures (k % RING + 1) % RING == (k + 1) % RING
  {
  }

  lemma InsideBuffer(pos: nat, j: nat)
    requires 0 < j && pos + j < RING
    ensures ((pos + j - 1) + 1) % RING == pos + j
  {
  }

  lemma StartsOver(k: nat, pos: nat)
    requires pos == (k + 1) % RING
    ensures (k + (RING - pos) + 1) % RING == 0
  {
  }
}
