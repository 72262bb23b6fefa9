/**
 The receiving end: a fixed buffer appended to and compacted in place, and the loop that
 dispatches every complete message in it.
 */
module DapReceiver {
  import opened DapFraming

  /** What a read returns: bytes, none when it would block; or that the peer has closed or the read failed. */
  datatype Read = Data(chunk: string) | Gone

  function Received(c: Conn, read: Read): Conn {
    match read
    case Data(chunk) => Poll(c, chunk)
    case Gone => if c.open then Conn([], false, c.dispatched) else c
  }

  class Receiver {
    const buf: array<char>
    var len: nat
    var open: bool
    var dispatched: seq<string>

    ghost predicate Valid()
      reads this, buf
    {
      buf.Length == SIZE && len <= SIZE - 2 && buf[len] == NUL && (!open ==> len == 0)
    }

    function Contents(): string
      requires len <= buf.Length
      reads this, buf
    {
      buf[..len]
    }

    ghost function State(): Conn
      requires len <= buf.Length
      reads this, buf
    {
      Conn(Contents(), open, dispatched)
    }

    constructor ()
      ensures Valid() && fresh(buf) && State() == Fresh
    {
      buf := new char[SIZE](_ => NUL);
      len, open, dispatched := 0, true, [];
    }

    /** The Content-Length among the header lines before `h`: the rest of the buffer, line by line. */
    method HeaderLength(h: nat) returns (length: int)
      requires Valid() && h <= len
      ensures length == LengthField(Contents(), h)
    {
      var rest, left: int := Contents(), h;
      while left > 0
        invariant LengthField(rest, left) == LengthField(Contents(), h)
        decreases |rest|
      {
        if FIELD <= rest {
          var value := PastBlanks(rest[|FIELD|..]);
          return Atoi(value);
        }
        var nl := Newline(rest);
        if nl < 0 || nl >= left {
          return -1;
        }
        rest, left := rest[nl+1..], left - nl - 1;
      }
      length := -1;
    }

    method PastBlanks(s: string) returns (r: string)
      ensures r == SkipBlanks(s)
    {
      r := s;
      while r != [] && (r[0] == ' ' || r[0] == '\t')
        invariant SkipBlanks(r) == SkipBlanks(s)
        decreases |r|
      {
        r := r[1..];
      }
    }

    method Extract() returns (e: Extract)
      requires Valid()
      ensures e == TryExtract(Contents())
    {
      var h := HeaderEnd(Contents());
      if h < 0 {
        return NeedMore;
      }
      var length := HeaderLength(h);
      if length < 0 {
        return Skip(h + 4);
      }
      if length >= SIZE {
        return TooLarge;
      }
      if len < h + 4 + length {
        return NeedMore;
      }
      e := Message(Contents()[h+4..h+4+length], h + 4 + length);
    }

    /** Move what follows the first `n` bytes to the front. */
    method Compact(n: nat)
      requires Valid() && n <= len
      modifies this`len, buf
      ensures buf.Length == SIZE && len == old(len) - n && buf[len] == NUL
      ensures Contents() == old(Contents()[n..])
    {
      var rest := len - n;
      forall i | 0 <= i < rest {
        buf[i] := buf[i + n];
      }
      len := rest;
      buf[len] := NUL;
    }

    method Append(chunk: string)
      requires Valid() && |chunk| <= SIZE - len - 2
      modifies this`len, buf
      ensures buf.Length == SIZE && len == old(len) + |chunk| && buf[len] == NUL
      ensures Contents() == old(Contents()) + chunk
    {
      forall i | 0 <= i < |chunk| {
        buf[len + i] := chunk[i];
      }
      len := len + |chunk|;
      buf[len] := NUL;
    }

    method Disconnect()
      requires Valid()
      modifies this`len, this`open, buf
      ensures Valid() && State() == Conn([], false, old(dispatched))
    {
      len, open := 0, false;
      buf[0] := NUL;
    }

    /** Take one message or one bad header off the front; nothing is left to do when `more` is false. */
    method DispatchOne() returns (more: bool)
      requires Valid() && open
      modifies this, buf
      ensures Valid() && (more ==> open && len < old(len))
      ensures Pumped(old(State())) == if more then Pumped(State()) else State()
    {
      var e := Extract();
      match e
      case NeedMore =>
        PumpEnds(State());
        more := false;
      case TooLarge =>
        PumpEnds(State());
        Disconnect();
        more := false;
      case Skip(n) =>
        PumpSkips(State(), n);
        Compact(n);
        more := true;
      case Message(body, n) =>
        PumpDispatches(State(), body, n);
        Compact(n);
        dispatched := dispatched + [body];
        more := true;
    }

    /** One poll of the server. A peer that has closed, and a read that failed, end the connection
        and what was waiting goes with it. */
    method PollServer(read: Read)
      requires Valid()
      requires open && Space(State()) > 0 && read.Data? ==> |read.chunk| <= Space(State())
      modifies this, buf
      ensures Valid() && State() == Received(old(State()), read)
    {
      if !open {
        return;
      }
      if SIZE - len - 2 <= 0 {
        Disconnect();
        return;
      }
      match read
      case Gone =>
        Disconnect();
      case Data(chunk) =>
        Append(chunk);
        DispatchAll();
    }

    method DispatchAll()
      requires Valid() && open
      modifies this, buf
      ensures Valid() && State() == Pumped(old(State()))
    {
      var more := true;
      while more
        invariant Valid() && (more ==> open)
        invariant Pumped(old(State())) == if more then Pumped(State()) else State()
        decreases more, len
      {
        more := DispatchOne();
      }
    }
  }

  /** What one extraction leaves for the next. */
  lemma PumpEnds(c: Conn)
    requires c.open && (TryExtract(c.buf).NeedMore? || TryExtract(c.buf).TooLarge?)
    ensures Pumped(c) == if TryExtract(c.buf).NeedMore? then c else Conn([], false, c.dispatched)
  {
    assert c.dispatched + [] == c.dispatched;
  }

  lemma PumpSkips(c: Conn, n: nat)
    requires c.open && TryExtract(c.buf) == Skip(n)
    ensures n <= |c.buf| && Pumped(c) == Pumped(c.(buf := c.buf[n..]))
  {
  }

  lemma DrainDispatches(s: string, body: string, n: nat)
    requires TryExtract(s) == Message(body, n)
    ensures n <= |s|
    ensures var d := Drain(s[n..]); Drain(s) == Drained([body] + d.bodies, d.rest, d.open)
  {
  }

  lemma Gathered(done: seq<string>, body: string, d: Drained, e: Drained)
    requires e == Drained([body] + d.bodies, d.rest, d.open)
    ensures Conn(e.rest, e.open, done + e.bodies) == Conn(d.rest, d.open, (done + [body]) + d.bodies)
  {
    assert done + ([body] + d.bodies) == (done + [body]) + d.bodies;
  }

  lemma PumpDispatches(c: Conn, body: string, n: nat)
    requires c.open && TryExtract(c.buf) == Message(body, n)
    ensures n <= |c.buf| && Pumped(c) == Pumped(Conn(c.buf[n..], true, c.dispatched + [body]))
  {
    DrainDispatches(c.buf, body, n);
    Gathered(c.dispatched, body, Drain(c.buf[n..]), Drain(c.buf));
  }
}
