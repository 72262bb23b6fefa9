/**
 However the byte stream is cut into reads, the connection dispatches exactly the framed
 messages that fit its buffer, in order, once each.
 */
module DapTheorems {
  import opened DapFraming

  // ---- One frame --------------------------------------------------------------------

  lemma FrameSplit(body: string, rest: string)
    ensures Frame(body) + rest == Header(|body|) + BLANK_LINE + (body + rest)
    ensures |Frame(body)| == |Header(|body|)| + 4 + |body|
  {
  }

  /** The extractor undoes framing, whatever follows in the buffer. */
  lemma FrameRoundTrip(body: string, rest: string)
    requires |body| < SIZE
    ensures TryExtract(Frame(body) + rest) == Message(body, |Frame(body)|)
  {
    var p := Header(|body|);
    var s := Frame(body) + rest;
    FrameSplit(body, rest);
    forall i | 0 <= i < |p|
      ensures p[i] != '\r' && p[i] != NUL
    {
      HeaderChars(|body|, i);
    }
    HeaderEndAt(p, body + rest);
    LengthOfHeader(|body|, body + rest);
    assert s[|p|+4..|p|+4+|body|] == body;
  }

  /** A frame that has not wholly arrived stays where it is. */
  lemma FrameIncomplete(body: string, s: string)
    requires s <= Frame(body) && |s| < |Frame(body)| && |body| < SIZE
    ensures TryExtract(s) == NeedMore
  {
    var p := Header(|body|);
    FrameSplit(body, []);
    forall i | 0 <= i < |p|
      ensures p[i] != '\r' && p[i] != NUL
    {
      HeaderChars(|body|, i);
    }
    if |s| < |p| + 4 {
      assert s <= p + BLANK_LINE;
      HeaderNotEnded(p, s);
    } else {
      var part := s[|p|+4..];
      assert s == p + BLANK_LINE + part;
      HeaderEndAt(p, part);
      LengthOfHeader(|body|, part);
    }
  }

  /** A body no buffer could hold is refused as soon as its header is in. */
  lemma FrameRefused(body: string, s: string)
    requires s <= Frame(body) && |body| >= SIZE
    ensures TryExtract(s) == if |s| < |Header(|body|)| + 4 then NeedMore else TooLarge
  {
    var p := Header(|body|);
    FrameSplit(body, []);
    forall i | 0 <= i < |p|
      ensures p[i] != '\r' && p[i] != NUL
    {
      HeaderChars(|body|, i);
    }
    if |s| < |p| + 4 {
      assert s <= p + BLANK_LINE;
      HeaderNotEnded(p, s);
    } else {
      var part := s[|p|+4..];
      assert s == p + BLANK_LINE + part;
      HeaderEndAt(p, part);
      LengthOfHeader(|body|, part);
    }
  }

  // ---- A stream of pieces, cut anywhere -------------------------------------------------

  /** How many whole pieces the first `n` bytes contain. */
  function Whole(ps: seq<string>, n: nat): (k: nat)
    ensures k <= |ps|
  {
    if ps == [] || n < |ps[0]| then 0 else 1 + Whole(ps[1..], n - |ps[0]|)
  }

  /** The part of the next piece that has come in with `s`. */
  function Pending(ps: seq<string>, s: string): string {
    if ps == [] || |s| < |ps[0]| then s else Pending(ps[1..], s[|ps[0]|..])
  }

  lemma FirstPiece(ps: seq<string>, s: string)
    requires ps != [] && s <= Concat(ps) && |s| >= |ps[0]|
    ensures s == ps[0] + s[|ps[0]|..]
    ensures s[|ps[0]|..] <= Concat(ps[1..])
  {
  }

  lemma {:induction false} PendingPiece(ps: seq<string>, s: string)
    requires s <= Concat(ps)
    ensures var k := Whole(ps, |s|);
            Pending(ps, s) <= Concat(ps[k..]) && Whole(ps[k..], |Pending(ps, s)|) == 0
    decreases |ps|
  {
    if ps != [] && |s| >= |ps[0]| {
      var t := s[|ps[0]|..];
      FirstPiece(ps, s);
      PendingPiece(ps[1..], t);
      assert ps[Whole(ps[1..], |t|)+1..] == ps[1..][Whole(ps[1..], |t|)..];
    } else {
      assert ps[0..] == ps;
    }
  }

  /** The rest of the stream, taken up where the buffer stands. */
  lemma {:induction false} Resume(ps: seq<string>, s: string, x: string)
    requires s + x <= Concat(ps)
    ensures var k, p := Whole(ps, |s|), Pending(ps, s);
            p + x <= Concat(ps[k..])
            && Whole(ps, |s + x|) == k + Whole(ps[k..], |p + x|)
            && Pending(ps, s + x) == Pending(ps[k..], p + x)
    decreases |ps|
  {
    if ps != [] && |s| >= |ps[0]| {
      var n := |ps[0]|;
      var t := s[n..];
      FirstPiece(ps, s + x);
      assert (s + x)[n..] == t + x;
      Resume(ps[1..], t, x);
      assert ps[Whole(ps[1..], |t|)+1..] == ps[1..][Whole(ps[1..], |t|)..];
    } else {
      assert ps[0..] == ps;
    }
  }

  lemma {:induction false} WholeStream(ps: seq<string>)
    ensures Whole(ps, |Concat(ps)|) == |ps| && Pending(ps, Concat(ps)) == []
  {
    if ps != [] {
      assert Concat(ps)[|ps[0]|..] == Concat(ps[1..]);
      WholeStream(ps[1..]);
    }
  }

  // ---- Draining a stretch of the stream ------------------------------------------------

  /** How many messages come before the first that does not fit. */
  function Fitting(bodies: seq<string>): (n: nat)
    ensures n <= |bodies|
  {
    if bodies == [] || !Fits(bodies[0]) then 0 else 1 + Fitting(bodies[1..])
  }

  predicate AllFit(bodies: seq<string>) {
    Fitting(bodies) == |bodies|
  }

  lemma {:induction false} AllFitEach(bodies: seq<string>)
    ensures AllFit(bodies) <==> forall i :: 0 <= i < |bodies| ==> Fits(bodies[i])
  {
    if bodies != [] {
      AllFitEach(bodies[1..]);
      assert forall i :: 1 <= i < |bodies| ==> bodies[i] == bodies[1..][i-1];
      assert (forall i :: 0 <= i < |bodies| ==> Fits(bodies[i]))
             <==> Fits(bodies[0]) && forall i :: 0 <= i < |bodies[1..]| ==> Fits(bodies[1..][i]);
    }
  }

  lemma {:induction false} FittingFrom(bodies: seq<string>, k: nat)
    requires k <= Fitting(bodies)
    ensures Fitting(bodies) == k + Fitting(bodies[k..])
  {
    if k > 0 {
      FittingFrom(bodies[1..], k - 1);
      assert bodies[1..][k-1..] == bodies[k..];
    } else {
      assert bodies[0..] == bodies;
    }
  }

  lemma {:induction false} FramesFrom(bodies: seq<string>, k: nat)
    requires k <= |bodies|
    ensures |Frames(bodies)| == |bodies|
    ensures Frames(bodies[k..]) == Frames(bodies)[k..]
  {
    if k > 0 {
      FramesFrom(bodies[1..], k - 1);
      assert bodies[1..][k-1..] == bodies[k..];
    } else {
      if bodies != [] {
        FramesFrom(bodies[1..], 0);
      }
      assert bodies[0..] == bodies;
    }
  }

  lemma EmptyDrains()
    ensures TryExtract([]) == NeedMore
  {
  }

  lemma DrainMessage(body: string, t: string)
    requires |body| < SIZE
    ensures var s, d := Frame(body) + t, Drain(t);
            Drain(s) == Drained([body] + d.bodies, d.rest, d.open)
  {
    FrameRoundTrip(body, t);
    assert (Frame(body) + t)[|Frame(body)|..] == t;
  }

  /** The part of the next frame that has arrived: it waits, unless no buffer could hold it. */
  lemma DrainPart(bodies: seq<string>, s: string)
    requires s <= Stream(bodies) && Whole(Frames(bodies), |s|) == 0
    ensures Drain(s).bodies == []
    ensures Drain(s).open ==> Drain(s).rest == s
    ensures AllFit(bodies) ==> Drain(s).open
  {
    if bodies == [] {
      EmptyDrains();
    } else {
      FrameSplit(bodies[0], []);
      assert s <= Frame(bodies[0]);
      if |bodies[0]| < SIZE {
        FrameIncomplete(bodies[0], s);
      } else {
        FrameRefused(bodies[0], s);
        assert !Fits(bodies[0]);
      }
    }
  }

  lemma FirstFits(bodies: seq<string>)
    requires bodies != [] && |Frame(bodies[0])| <= SIZE - 2
    ensures |bodies[0]| < SIZE && Fitting(bodies) == 1 + Fitting(bodies[1..])
  {
    FrameSplit(bodies[0], []);
  }

  /** `d` dispatches the whole frames of `s` and waits in the next one. */
  ghost predicate Dispatches(bodies: seq<string>, s: string, d: Drained) {
    var k := Whole(Frames(bodies), |s|);
    k <= |bodies| && k <= Fitting(bodies) && d.bodies == bodies[..k]
    && (d.open ==> d.rest == Pending(Frames(bodies), s))
    && (AllFit(bodies) ==> d.open)
  }

  lemma DispatchesNext(bodies: seq<string>, s: string, d: Drained, t: string, e: Drained)
    requires bodies != [] && s == Frame(bodies[0]) + t && Fits(bodies[0])
    requires Dispatches(bodies[1..], t, e)
    requires d == Drained([bodies[0]] + e.bodies, e.rest, e.open)
    ensures Dispatches(bodies, s, d)
  {
    var k := Whole(Frames(bodies[1..]), |t|);
    assert bodies[..k+1] == [bodies[0]] + bodies[1..][..k];
    assert s[|Frame(bodies[0])|..] == t;
  }

  /** Whatever has come in, exactly the whole frames are dispatched. */
  lemma {:induction false} DrainStream(bodies: seq<string>, s: string)
    requires s <= Stream(bodies) && |s| <= SIZE - 2
    ensures Dispatches(bodies, s, Drain(s))
    decreases |bodies|
  {
    if Whole(Frames(bodies), |s|) == 0 {
      DrainPart(bodies, s);
    } else {
      var t := s[|Frame(bodies[0])|..];
      FirstPiece(Frames(bodies), s);
      FirstFits(bodies);
      DrainStream(bodies[1..], t);
      DrainMessage(bodies[0], t);
      DispatchesNext(bodies, s, Drain(s), t, Drain(t));
    }
  }

  // ---- Whole runs of polls ---------------------------------------------------------------

  /** The stream still to be dispatched, and a connection in the middle of its first frame. */
  ghost predicate Waiting(left: seq<string>, c: Conn, x: string) {
    c.open && |c.buf| <= SIZE - 2 && c.buf + x <= Stream(left) && Whole(Frames(left), |c.buf|) == 0
  }

  lemma SpaceLeft(left: seq<string>, c: Conn)
    requires Waiting(left, c, []) && AllFit(left)
    ensures Space(c) > 0
  {
    assert c.buf + [] == c.buf;
  }

  /** From `c` to `d`, `s` being all the bytes seen: the first `k` messages have been dispatched. */
  ghost predicate Progress(left: seq<string>, c: Conn, d: Conn, s: string, k: nat) {
    k <= Fitting(left) && d.dispatched == c.dispatched + left[..k]
    && (d.open ==> k == Whole(Frames(left), |s|) && d.buf == Pending(Frames(left), s))
    && (AllFit(left) ==> d.open)
  }

  /** One poll dispatches the frames that become whole and waits in the next one. */
  lemma PollStream(left: seq<string>, c: Conn, chunk: string, x: string) returns (k: nat)
    requires Waiting(left, c, chunk + x) && (Space(c) > 0 ==> |chunk| <= Space(c))
    ensures Progress(left, c, Poll(c, chunk), c.buf + chunk, k)
    ensures Poll(c, chunk).open ==> Waiting(left[k..], Poll(c, chunk), x)
  {
    var s := c.buf + chunk;
    assert c.buf + (chunk + x) == s + x;
    if AllFit(left) {
      assert c.buf <= c.buf + (chunk + x);
      SpaceLeft(left, c);
    }
    if Space(c) <= 0 {
      k := 0;
    } else {
      DrainStream(left, s);
      k := Whole(Frames(left), |s|);
      PendingPiece(Frames(left), s);
      Resume(Frames(left), s, x);
      FramesFrom(left, k);
      PendingShrinks(Frames(left), s);
    }
  }

  lemma {:induction false} PendingShrinks(ps: seq<string>, s: string)
    ensures |Pending(ps, s)| <= |s|
    decreases |ps|
  {
    if ps != [] && |s| >= |ps[0]| {
      PendingShrinks(ps[1..], s[|ps[0]|..]);
    }
  }

  lemma {:induction false} ClosedStays(c: Conn, chunks: seq<string>)
    requires !c.open
    ensures Polls(c, chunks) == c
    decreases |chunks|
  {
    if chunks != [] {
      ClosedStays(c, chunks[1..]);
    }
  }

  /** `Resume`, the pieces after the first `j` being named. */
  lemma ResumeAt(ps: seq<string>, qs: seq<string>, s: string, x: string, j: nat, p: string)
    requires s + x <= Concat(ps) && j <= |ps| && qs == ps[j..]
    requires j == Whole(ps, |s|) && p == Pending(ps, s)
    ensures Whole(ps, |s + x|) == j + Whole(qs, |p + x|)
    ensures Pending(ps, s + x) == Pending(qs, p + x)
  {
    Resume(ps, s, x);
  }

  /** What came before, the first `j` and the next `n` make one run. */
  lemma SliceJoin<T>(s: seq<T>, before: seq<T>, j: nat, n: nat)
    requires j + n <= |s|
    ensures before + s[..j] + s[j..][..n] == before + s[..j+n]
  {
    assert s[..j+n] == s[..j] + s[j..][..n];
  }

  lemma Chain(left: seq<string>, c: Conn, next: Conn, d: Conn, s: string, x: string, t: string, j: nat, n: nat)
    requires Progress(left, c, next, s, j) && next.open && s + x == t && t <= Stream(left)
    requires Progress(left[j..], next, d, next.buf + x, n)
    ensures Progress(left, c, d, t, j + n)
  {
    FramesFrom(left, j);
    ResumeAt(Frames(left), Frames(left[j..]), s, x, j, next.buf);
    FittingFrom(left, j);
    SliceJoin(left, c.dispatched, j, n);
  }

  /** The first read of several, and the rest. */
  lemma FirstRead(c: Conn, chunks: seq<string>) returns (next: Conn, x: string)
    requires chunks != [] && c.open && Admissible(c, chunks)
    ensures next == Poll(c, chunks[0]) && Admissible(next, chunks[1..])
    ensures x == Concat(chunks[1..]) && Concat(chunks) == chunks[0] + x
    ensures Polls(c, chunks) == Polls(next, chunks[1..])
    ensures (c.buf + chunks[0]) + x == c.buf + Concat(chunks)
    ensures Space(c) > 0 ==> |chunks[0]| <= Space(c)
  {
    next := Poll(c, chunks[0]);
    x := Concat(chunks[1..]);
  }

  lemma NoReads(left: seq<string>, c: Conn, chunks: seq<string>)
    requires Waiting(left, c, Concat(chunks)) && chunks == []
    ensures Progress(left, c, Polls(c, chunks), c.buf + Concat(chunks), 0)
  {
    assert c.buf + Concat(chunks) == c.buf;
  }

  lemma Dropped(left: seq<string>, c: Conn, next: Conn, s: string, d: Conn, t: string, k: nat)
    requires Progress(left, c, next, s, k) && !next.open && d == next
    ensures Progress(left, c, d, t, k)
  {
  }

  /** Any reads that follow each other along the stream. */
  lemma {:induction false} PollsStream(left: seq<string>, c: Conn, chunks: seq<string>) returns (k: nat)
    requires Waiting(left, c, Concat(chunks)) && Admissible(c, chunks)
    ensures Progress(left, c, Polls(c, chunks), c.buf + Concat(chunks), k)
    decreases |chunks|
  {
    if chunks == [] {
      k := 0;
      NoReads(left, c, chunks);
    } else {
      var next, x := FirstRead(c, chunks);
      var j := PollStream(left, c, chunks[0], x);
      if next.open {
        var n := PollsStream(left[j..], next, chunks[1..]);
        Chain(left, c, next, Polls(c, chunks), c.buf + chunks[0], x, c.buf + Concat(chunks), j, n);
        k := j + n;
      } else {
        ClosedStays(next, chunks[1..]);
        Dropped(left, c, next, c.buf + chunks[0], Polls(c, chunks), c.buf + Concat(chunks), j);
        k := j;
      }
    }
  }

  /** However a stream of messages that fit is cut, and however much of it has come in: what
      has been dispatched is exactly its whole messages, in order, and nothing is dropped. */
  lemma FramesDelivered(bodies: seq<string>, chunks: seq<string>)
    requires AllFit(bodies) && Admissible(Fresh, chunks) && Concat(chunks) <= Stream(bodies)
    ensures |Frames(bodies)| == |bodies|
    ensures Polls(Fresh, chunks) ==
            Conn(Pending(Frames(bodies), Concat(chunks)), true, bodies[..Whole(Frames(bodies), |Concat(chunks)|)])
  {
    FramesFrom(bodies, 0);
    EmptyWaits(bodies, Concat(chunks));
    var k := PollsStream(bodies, Fresh, chunks);
    assert Fresh.buf + Concat(chunks) == Concat(chunks);
    assert Fresh.dispatched + bodies[..k] == bodies[..k];
  }

  lemma EmptyWaits(bodies: seq<string>, x: string)
    requires x <= Stream(bodies)
    ensures Waiting(bodies, Fresh, x)
  {
    assert Fresh.buf + x == x;
    if bodies != [] {
      FrameSplit(bodies[0], []);
    }
  }

  /** The whole stream is delivered exactly when every message in it fits the buffer. */
  lemma DeliveredExactlyWhenFit(bodies: seq<string>, chunks: seq<string>)
    requires Admissible(Fresh, chunks) && Concat(chunks) == Stream(bodies)
    ensures Polls(Fresh, chunks) == Conn([], true, bodies) <==> forall i :: 0 <= i < |bodies| ==> Fits(bodies[i])
  {
    AllFitEach(bodies);
    FramesFrom(bodies, 0);
    EmptyWaits(bodies, Concat(chunks));
    var k := PollsStream(bodies, Fresh, chunks);
    WholeStream(Frames(bodies));
    assert Fresh.buf + Concat(chunks) == Concat(chunks);
    assert Fresh.dispatched + bodies[..k] == bodies[..k];
    assert bodies[..|bodies|] == bodies;
  }
}
