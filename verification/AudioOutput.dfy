/**
 From the mixer to the sound device: what a render adds goes into the queue in one push.
 */
module AudioOutput {
  import opened AudioLevels
  import opened AudioEngine
  import opened AudioQueue

  /** What a render adds is shorter than a block of the sound queue, so one push takes it. */
  lemma RenderFitsPush(c: Chips, l: Levels, r: Reads, limiter: nat, out: seq<(int, int)>)
    requires Coupled(l)
    ensures var s := RenderedFrom(c, l, r, limiter, out).sounded.out;
            out <= s && |s| < |out| + BLOCK
  {
    if Ready(l) {
      RenderIsShort(l);
      SoundingLength(c, r, limiter, Count(l));
    }
  }

  /** An exactly full queue is reached, and played as silence: pushed quarter blocks fill any queue. */
  method FullIsSilent(blocks: nat) returns (q: Queue, out: seq<Frame>)
    requires blocks >= 3
    ensures fresh(q) && q.Valid() && q.written == q.buffer.Length == blocks * BLOCK == |q.all| && out == []
  {
    q := new Queue(blocks);
    var quarter := seq(BLOCK / 4, _ => (0, 0));
    var i := 0;
    while i < 4 * blocks
      invariant i <= 4 * blocks && fresh(q) && fresh(q.buffer) && q.Valid() && q.buffer.Length == blocks * BLOCK
      invariant q.written == |q.all| == i * |quarter|
    {
      q.Push(quarter);
      i := i + 1;
    }
    out := q.Callback();
  }
}
