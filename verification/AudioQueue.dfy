/**
 The queue between the mixer and the sound device, in stereo frames. The mixer pushes, and
 skips the reader ahead rather than overflow; the device's callback takes 256 at a time.
 */
module AudioQueue {
  import opened Numbers

  const BLOCK: nat := 256

  type Frame = (int, int)

  /** An index that has gone at most once around. */
  function Once(k: nat, size: nat): nat {
    if k < size then k else k - size
  }

  lemma ModOnce(k: nat, size: nat)
    requires 0 < size && k < 2 * size
    ensures k % size == Once(k, size)
  {
    DivIs(k, size, if k < size then 0 else 1, Once(k, size));
  }

  /** Wrapping before or after adding is the same. */
  lemma ModPart(a: nat, b: nat, size: nat)
    requires 0 < size
    ensures (a % size + b) % size == (a + b) % size
  {
    var x := a % size + b;
    assert a == size * (a / size) + a % size && x == size * (x / size) + x % size;
    assert size * (x / size + a / size) == size * (x / size) + size * (a / size);
    DivIs(a + b, size, x / size + a / size, x % size);
  }

  /** Where the frame `age` pushes before the newest one is. */
  function Back(wr: nat, age: nat, size: nat): int {
    if wr > age then wr - 1 - age else wr - 1 - age + size
  }

  class Queue {
    const buffer: array<Frame>
    var rd: nat
    var wr: nat
    var written: nat
    ghost var all: seq<Frame>

    ghost predicate Shaped()
      reads this
    {
      buffer.Length >= 3 * BLOCK && rd < buffer.Length && wr < buffer.Length && written <= |all|
    }

    /** The newest `n` frames there have been are in the buffer, going back from the write index. */
    ghost predicate Newest(n: nat)
      requires Shaped() && n <= buffer.Length && n <= |all|
      reads this, buffer
    {
      forall age: nat {:trigger Back(wr, age, buffer.Length)} :: age < n ==>
        buffer[Back(wr, age, buffer.Length)] == all[|all|-1-age]
    }

    /** What is waiting lies between the indices, and fills the buffer at most. */
    ghost predicate Valid()
      reads this, buffer
    {
      Shaped() && written <= buffer.Length && wr == Once(rd + written, buffer.Length) && Newest(written)
    }

    ghost function Waiting(): seq<Frame>
      requires written <= |all|
      reads this
    {
      all[|all|-written..]
    }

    constructor (blocks: nat)
      requires blocks >= 3
      ensures Valid() && fresh(buffer) && all == [] && buffer.Length == blocks * BLOCK
    {
      buffer := new Frame[blocks * BLOCK](_ => (0, 0));
      rd, wr, written, all := 0, 0, 0, [];
    }

    /** One frame in at the write index. */
    method Store(f: Frame, ghost n: nat)
      requires Shaped() && n <= buffer.Length && n <= |all| && Newest(n)
      modifies buffer, this`wr, this`all
      ensures Shaped() && all == old(all) + [f] && wr == Once(old(wr) + 1, buffer.Length)
      ensures Newest(Least(n + 1, buffer.Length))
    {
      buffer[wr] := f;
      ghost var was := wr;
      wr := (wr + 1) % buffer.Length;
      ModOnce(was + 1, buffer.Length);
      all := all + [f];
      forall age: nat | age < Least(n + 1, buffer.Length)
        ensures buffer[Back(wr, age, buffer.Length)] == all[|all|-1-age]
      {
        if age > 0 {
          assert Back(wr, age, buffer.Length) == Back(was, age - 1, buffer.Length);
          assert Back(was, age - 1, buffer.Length) != was;
        }
      }
    }

    method StoreAll(fs: seq<Frame>)
      requires Valid()
      modifies buffer, this`wr, this`all
      ensures Shaped() && all == old(all) + fs && wr == (old(wr) + |fs|) % buffer.Length
      ensures Newest(Least(written + |fs|, buffer.Length))
    {
      var i := 0;
      while i < |fs|
        invariant i <= |fs| && Shaped() && all == old(all) + fs[..i] && wr == (old(wr) + i) % buffer.Length
        invariant Newest(Least(written + i, buffer.Length))
      {
        ModPart(old(wr) + i, 1, buffer.Length);
        ModOnce(wr + 1, buffer.Length);
        Store(fs[i], Least(written + i, buffer.Length));
        assert fs[..i+1] == fs[..i] + [fs[i]];
        i := i + 1;
      }
      assert fs[..i] == fs;
    }

    /** The indices and the count agree, though the count may be more than the buffer holds. */
    ghost predicate Counted()
      reads this, buffer
    {
      Shaped() && wr == (rd + written) % buffer.Length && Newest(Least(written, buffer.Length))
    }

    lemma CountedFits()
      requires Counted()
      ensures Valid() <==> written <= buffer.Length
    {
      if written <= buffer.Length {
        ModOnce(rd + written, buffer.Length);
      }
    }

    /** Skip a block of the oldest frames for every time around there is too much for. */
    method Skip()
      requires Counted()
      modifies this`rd, this`written
      ensures Counted()
      ensures var w := old(written);
              written == if w > buffer.Length then w - w / buffer.Length * BLOCK else w
      ensures old(written) <= buffer.Length + BLOCK ==> old(written) - BLOCK <= written <= buffer.Length
    {
      if written > buffer.Length {
        var skip := written / buffer.Length * BLOCK;
        SkipKeeps(rd, written, buffer.Length, skip);
        rd := (rd + skip) % buffer.Length;
        written := written - skip;
      }
    }

    /** One mix pushed: nothing is lost while it fits; when it does not, a block of the oldest is
        skipped for every time around. That is enough exactly when what is left fits, as it always
        does after a push of a block or less. */
    method Push(fs: seq<Frame>)
      requires Valid()
      modifies buffer, this
      ensures all == old(all) + fs
      ensures var w := old(written) + |fs|;
              written == if w > buffer.Length then w - w / buffer.Length * BLOCK else w
      ensures Valid() <==> written <= buffer.Length
      ensures |fs| <= BLOCK ==> Valid() && old(written) + |fs| - BLOCK <= written
    {
      StoreAll(fs);
      WritesOn(rd, old(written), |fs|, buffer.Length);
      written := written + |fs|;
      Skip();
      CountedFits();
    }

    /** Copy out the frames at the read index, up to the end of the buffer at most. */
    method Take(n: nat) returns (out: seq<Frame>)
      requires Valid() && n <= written && rd + n <= buffer.Length
      modifies this`rd, this`written
      ensures Valid() && out == old(Waiting())[..n] && written == old(written) - n
      ensures rd == Once(old(rd) + n, buffer.Length)
    {
      out := [];
      var i := 0;
      while i < n
        invariant i <= n && out == Waiting()[..i]
      {
        assert Back(wr, written - 1 - i, buffer.Length) == rd + i;
        out := out + [buffer[rd + i]];
        i := i + 1;
      }
      ModOnce(rd + n, buffer.Length);
      rd := (rd + n) % buffer.Length;
      written := written - n;
    }

    /** The device's callback: the oldest frames waiting, at most a block of them, then silence.
        A queue that is exactly full has its indices together and is taken for an empty one. */
    method Callback() returns (out: seq<Frame>)
      requires Valid()
      modifies this`rd, this`written
      ensures Valid()
      ensures var n := if old(written) == buffer.Length then 0 else Least(BLOCK, old(written));
              out == old(Waiting())[..n] && written == old(written) - n
    {
      out := [];
      ghost var was := Waiting();
      if rd > wr {
        out := Take(Least(BLOCK, buffer.Length - rd));
      }
      if rd <= wr {
        var more := Take(Least(BLOCK - |out|, wr - rd));
        out := out + more;
      }
    }
  }

  /** The write index has moved on by as much as there is more to read. */
  lemma WritesOn(rd: nat, written: nat, n: nat, size: nat)
    requires 0 < size && rd < size && written <= size
    ensures (Once(rd + written, size) + n) % size == (rd + (written + n)) % size
  {
    ModOnce(rd + written, size);
    ModPart(rd + written, n, size);
    assert rd + written + n == rd + (written + n);
  }

  /** What is skipped was there; and when at most a block too much was, it is one block. */
  lemma SkipsLess(w: nat, size: nat)
    requires BLOCK < size < w
    ensures BLOCK <= w / size * BLOCK <= w
    ensures w <= size + BLOCK ==> w / size == 1
  {
    var q := w / size;
    assert w == size * q + w % size;
    Mono(q, BLOCK, size);
    Mono(size, 2, q);
    Mono(size, q, 0);
  }

  /** Skipping moves the read index as far as it shortens what is left. */
  lemma SkipKeeps(rd: nat, w: nat, size: nat, skip: nat)
    requires BLOCK < size < w && skip == w / size * BLOCK
    ensures skip <= w && ((rd + skip) % size + (w - skip)) % size == (rd + w) % size
    ensures w <= size + BLOCK ==> skip == BLOCK
  {
    SkipsLess(w, size);
    ModPart(rd + skip, w - skip, size);
    assert rd + skip + (w - skip) == rd + w;
  }
}
