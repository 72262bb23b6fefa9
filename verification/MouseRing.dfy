/**
 The ring the mouse feeds and the system controller drains: a queue of at most fifteen
 bytes, packets that go in whole or not at all, and movement cut into pieces that fit one.
 */
module MouseRing {
  import opened Numbers

  const SIZE: nat := 16

  function Slot(k: nat): nat {
    k % SIZE
  }

  /** `n` bytes of the ring, from `tail` on. */
  function Waiting(b: seq<Octet>, tail: nat, n: nat): (s: seq<Octet>)
    requires |b| == SIZE
    ensures |s| == n
  {
    seq(n, i requires 0 <= i => b[Slot(tail + i)])
  }

  lemma WaitingMore(b: seq<Octet>, tail: nat, n: nat, v: Octet)
    requires |b| == SIZE && n < SIZE - 1
    ensures Waiting(b[Slot(tail + n) := v], tail, n + 1) == Waiting(b, tail, n) + [v]
  {
    var more, was := Waiting(b[Slot(tail + n) := v], tail, n + 1), Waiting(b, tail, n);
    forall i: nat | i < n
      ensures more[i] == was[i]
    {
      Apart(tail + i, tail + n);
    }
  }

  lemma WaitingLess(b: seq<Octet>, tail: nat, n: nat)
    requires |b| == SIZE && 0 < n
    ensures Waiting(b, tail, n) == [b[Slot(tail)]] + Waiting(b, Slot(tail + 1), n - 1)
  {
    var whole, rest := Waiting(b, tail, n), Waiting(b, Slot(tail + 1), n - 1);
    forall i: nat | i < n - 1
      ensures whole[i + 1] == rest[i]
    {
      Around(tail + 1, i);
      assert tail + (i + 1) == tail + 1 + i;
    }
  }

  lemma Apart(a: nat, b: nat)
    requires a < b < a + SIZE
    ensures Slot(a) != Slot(b)
  {
  }

  lemma Around(a: nat, i: nat)
    ensures Slot(Slot(a) + i) == Slot(a + i)
  {
  }

  function Filled(head: nat, tail: nat): nat
    requires tail < SIZE
  {
    Slot(SIZE + head - tail)
  }

  /** Where the head is, and when the slot after it is the tail. */
  lemma Adding(head: nat, tail: nat)
    requires head < SIZE && tail < SIZE
    ensures head == Slot(tail + Filled(head, tail))
    ensures Slot(head + 1) != tail <==> Filled(head, tail) < SIZE - 1
    ensures Slot(head + 1) != tail ==> Filled(Slot(head + 1), tail) == Filled(head, tail) + 1
  {
  }

  lemma Taking(head: nat, tail: nat)
    requires head < SIZE && tail < SIZE
    ensures head != tail <==> Filled(head, tail) > 0
    ensures head != tail ==> Filled(head, Slot(tail + 1)) == Filled(head, tail) - 1
  {
  }

  class ByteRing {
    const buffer: array<Octet>
    var head: nat
    var tail: nat

    ghost predicate Valid()
      reads this, buffer
    {
      buffer.Length == SIZE && head < SIZE && tail < SIZE
    }

    function Count(): (n: nat)
      requires head < SIZE && tail < SIZE
      reads this
    {
      Filled(head, tail)
    }

    /** What is waiting, oldest first. */
    ghost function Contents(): (s: seq<Octet>)
      requires Valid()
      reads this, buffer
      ensures |s| == Count()
    {
      Waiting(buffer[..], tail, Count())
    }

    constructor ()
      ensures Valid() && fresh(buffer) && Contents() == []
    {
      buffer := new Octet[SIZE](_ => 0);
      head, tail := 0, 0;
    }

    /** Discarded when the ring is full: one slot always stays free. */
    method Add(v: Octet)
      requires Valid()
      modifies this`head, buffer
      ensures Valid()
      ensures Contents() == if |old(Contents())| < SIZE - 1 then old(Contents()) + [v] else old(Contents())
    {
      var next := Slot(head + 1);
      Adding(head, tail);
      if next != tail {
        WaitingMore(buffer[..], tail, Count(), v);
        buffer[head] := v;
        head := next;
      }
    }

    /** The oldest byte, or 0 when there is none. */
    method Next() returns (v: Octet)
      requires Valid()
      modifies this`tail
      ensures Valid()
      ensures if old(Contents()) == [] then v == 0 && Contents() == []
              else v == old(Contents())[0] && Contents() == old(Contents())[1..]
    {
      v := 0;
      Taking(head, tail);
      if head != tail {
        WaitingLess(buffer[..], tail, Count());
        v := buffer[tail];
        tail := Slot(tail + 1);
      }
    }
  }

  // ---- Packets --------------------------------------------------------------------------

  /** As much of a movement as one packet can carry. */
  type Piece = d: int | -256 <= d <= 255

  function Clamped(d: int): Piece {
    if d > 255 then 255 else if d < -256 then -256 else d
  }

  predicate HasWheel(device: int) {
    device == 3 || device == 4
  }

  /** The ninth bit of a movement. */
  function Sign(d: Piece): int {
    if d < 0 then 1 else 0
  }

  function LowByte(d: int): Octet {
    d % 256
  }

  function Packet(device: int, x: Piece, y: Piece, buttons: Octet, wheel: int): seq<Octet>
    requires buttons < 8
  {
    [Sign(y) * 32 + Sign(x) * 16 + 8 + buttons, LowByte(x), LowByte(y)]
    + if HasWheel(device) then [LowByte(wheel)] else []
  }

  /** A movement as its reader puts it together again. */
  function Moved(sign: int, low: Octet): int {
    if sign == 1 then low - 256 else low
  }

  /** Every movement and the buttons can be read back from a packet. */
  lemma PacketReadsBack(device: int, x: Piece, y: Piece, buttons: Octet, wheel: int)
    requires buttons < 8
    ensures var p := Packet(device, x, y, buttons, wheel);
            Moved(p[0] / 16 % 2, p[1]) == x && Moved(p[0] / 32 % 2, p[2]) == y && p[0] % 8 == buttons
  {
  }

  /** The rest of a packet: bit 3 of the first byte, no overflow bits, and for a device with a wheel its
      movement in a fourth byte. */
  lemma PacketShape(device: int, x: Piece, y: Piece, buttons: Octet, wheel: int)
    requires buttons < 8
    ensures var p := Packet(device, x, y, buttons, wheel);
            && p[0] / 8 % 2 == 1 && p[0] < 64
            && |p| == PacketSize(device) == (if device == 3 || device == 4 then 4 else 3)
            && (|p| == 4 ==> 0 <= p[3] < 256 && (wheel - p[3]) % 256 == 0)
  {
  }

  class Mouse {
    const ring: ByteRing
    var device: int
    var buttons: Octet
    var diffX: int
    var diffY: int
    var wheel: int

    ghost predicate Valid()
      reads this, ring, ring.buffer
    {
      ring.Valid() && buttons < 8
    }

    constructor ()
      ensures Valid() && fresh(ring) && fresh(ring.buffer) && ring.Contents() == []
      ensures diffX == diffY == wheel == 0 && device == 3
    {
      ring := new ByteRing();
      device, buttons, diffX, diffY, wheel := 3, 0, 0, 0, 0;
    }

    /** A packet goes in whole when there is room for it and a byte to spare, and otherwise not at all. */
    method Send(x: Piece, y: Piece, w: int) returns (sent: bool)
      requires Valid()
      modifies ring, ring.buffer
      ensures Valid()
      ensures var p := Packet(device, x, y, buttons, w);
              sent == (|old(ring.Contents())| < SIZE - |p|)
              && ring.Contents() == if sent then old(ring.Contents()) + p else old(ring.Contents())
    {
      var psize := if HasWheel(device) then 4 else 3;
      sent := ring.Count() < SIZE - psize;
      if sent {
        ghost var was := ring.Contents();
        ghost var p := Packet(device, x, y, buttons, w);
        ring.Add(Sign(y) * 32 + Sign(x) * 16 + 8 + buttons);
        assert ring.Contents() == was + p[..1];
        ring.Add(LowByte(x));
        assert ring.Contents() == was + p[..2];
        ring.Add(LowByte(y));
        assert ring.Contents() == was + p[..3];
        if HasWheel(device) {
          ring.Add(LowByte(w));
        }
        assert ring.Contents() == was + p;
      }
    }

    /** The next piece of the movement, sent and taken off it whether or not the ring had room. */
    method SendPiece(ghost was: seq<Octet>, ghost w: int, pieces: seq<(Piece, Piece)>) returns (piece: (Piece, Piece))
      requires Valid() && |was| < SIZE && wheel == (if pieces == [] then w else 0)
      requires ring.Contents() == Entered(was, device, buttons, w, pieces)
      modifies this`diffX, this`diffY, this`wheel, ring, ring.buffer
      ensures Valid() && piece == (Clamped(old(diffX)), Clamped(old(diffY)))
      ensures diffX == old(diffX) - piece.0 && diffY == old(diffY) - piece.1 && wheel == 0
      ensures ring.Contents() == Entered(was, device, buttons, w, pieces + [piece])
    {
      piece := (Clamped(diffX), Clamped(diffY));
      EnteredNext(was, device, buttons, w, pieces, piece);
      var sent := Send(piece.0, piece.1, wheel);
      diffX, diffY, wheel := diffX - piece.0, diffY - piece.1, 0;
    }

    /** Cut the movement into pieces until one axis is done. Every unit of it is either in a piece or
        still to come. The packets of the first pieces go into the ring, as many as there is room for;
        the movement of the others is lost. */
    method SendState() returns (pieces: seq<(Piece, Piece)>)
      requires Valid()
      modifies this, ring, ring.buffer
      ensures Valid() && device == old(device) && buttons == old(buttons) && wheel == 0
      ensures pieces == CutOnto([], old(diffX), old(diffY)) && (diffX == 0 || diffY == 0)
      ensures diffX + SumX(pieces) == old(diffX) && diffY + SumY(pieces) == old(diffY)
      ensures |old(ring.Contents())| < SIZE
      ensures ring.Contents() == Entered(old(ring.Contents()), device, buttons, old(wheel), pieces)
    {
      pieces := [];
      var more := true;
      while more
        invariant Valid() && device == old(device) && buttons == old(buttons)
        invariant wheel == (if pieces == [] then old(wheel) else 0)
        invariant more || (pieces != [] && (diffX == 0 || diffY == 0))
        invariant (if more then CutOnto(pieces, diffX, diffY) else pieces) == CutOnto([], old(diffX), old(diffY))
        invariant diffX + SumX(pieces) == old(diffX) && diffY + SumY(pieces) == old(diffY)
        invariant ring.Contents() == Entered(old(ring.Contents()), device, buttons, old(wheel), pieces)
        decreases more, Size(diffX) + Size(diffY)
      {
        var piece := SendPiece(old(ring.Contents()), old(wheel), pieces);
        SumNext(pieces, piece.0, piece.1);
        pieces := pieces + [piece];
        more := diffX != 0 && diffY != 0;
      }
    }
  }

  /** The pieces a movement is cut into, after some done already. */
  function CutOnto(done: seq<(Piece, Piece)>, dx: int, dy: int): (r: seq<(Piece, Piece)>)
    ensures |done| < |r| && done <= r
    decreases Size(dx) + Size(dy)
  {
    var x, y := Clamped(dx), Clamped(dy);
    var all := done + [(x, y)];
    if dx != x && dy != y then CutOnto(all, dx - x, dy - y) else all
  }

  /** Each piece is as much of what is left as a packet can carry; they stop at the first after which
      one axis is done. */
  lemma {:induction false} CutStops(done: seq<(Piece, Piece)>, dx: int, dy: int, i: nat)
    requires |done| <= i < |CutOnto(done, dx, dy)|
    ensures var p := CutOnto(done, dx, dy);
            var restX, restY := dx + SumX(done) - SumX(p[..i]), dy + SumY(done) - SumY(p[..i]);
            && p[i] == (Clamped(restX), Clamped(restY))
            && (i > |done| ==> restX != 0 && restY != 0)
            && (i == |p| - 1 ==> restX == Clamped(restX) || restY == Clamped(restY))
    decreases Size(dx) + Size(dy)
  {
    var x, y := Clamped(dx), Clamped(dy);
    var all := done + [(x, y)];
    var p := CutOnto(done, dx, dy);
    SumNext(done, x, y);
    if i == |done| {
      assert p[..i] == done && p[i] == all[i];
    } else {
      CutStops(all, dx - x, dy - y, i);
      if i == |all| {
        assert p[..i] == all;
      }
    }
  }

  function PacketSize(device: int): nat {
    if HasWheel(device) then 4 else 3
  }

  /** How many packets go into a ring that holds `level` bytes. */
  function Fitting(level: nat, device: int): nat
    requires level < SIZE
  {
    (SIZE - 1 - level) / PacketSize(device)
  }

  lemma FittingExactly(level: nat, device: int, k: nat)
    requires level < SIZE
    ensures k <= Fitting(level, device) <==> level + k * PacketSize(device) < SIZE
  {
  }

  /** The packets of some pieces, the wheel in the first of them. */
  function Packets(device: int, buttons: Octet, wheel: int, pieces: seq<(Piece, Piece)>): (s: seq<Octet>)
    requires buttons < 8
    ensures |s| == |pieces| * PacketSize(device)
  {
    if pieces == [] then []
    else
      var n := |pieces| - 1;
      Packets(device, buttons, wheel, pieces[..n])
      + Packet(device, pieces[n].0, pieces[n].1, buttons, if n == 0 then wheel else 0)
  }

  /** What the ring holds once these pieces have been sent: the packets of the first of them, as
      many as fit, behind what it held. */
  function Entered(was: seq<Octet>, device: int, buttons: Octet, wheel: int, pieces: seq<(Piece, Piece)>): seq<Octet>
    requires buttons < 8 && |was| < SIZE
  {
    was + Packets(device, buttons, wheel, pieces[..Least(|pieces|, Fitting(|was|, device))])
  }

  /** Nothing is lost exactly when all the packets together fit. */
  lemma AllEnterExactly(was: seq<Octet>, device: int, buttons: Octet, wheel: int, pieces: seq<(Piece, Piece)>)
    requires buttons < 8 && |was| < SIZE
    ensures Entered(was, device, buttons, wheel, pieces) == was + Packets(device, buttons, wheel, pieces)
            <==> |was| + |pieces| * PacketSize(device) < SIZE
  {
    var m := Fitting(|was|, device);
    FittingExactly(|was|, device, |pieces|);
    if |pieces| <= m {
      assert pieces[..|pieces|] == pieces;
    }
  }

  lemma PacketsNext(device: int, buttons: Octet, wheel: int, pieces: seq<(Piece, Piece)>, piece: (Piece, Piece))
    requires buttons < 8
    ensures Packets(device, buttons, wheel, pieces + [piece])
            == Packets(device, buttons, wheel, pieces)
               + Packet(device, piece.0, piece.1, buttons, if pieces == [] then wheel else 0)
  {
    assert (pieces + [piece])[..|pieces|] == pieces;
  }

  /** There is room for one more packet exactly when it is among those that fit. */
  lemma RoomForOne(level: nat, device: int, n: nat)
    requires level < SIZE
    ensures level + Least(n, Fitting(level, device)) * PacketSize(device) < SIZE - PacketSize(device)
            <==> n < Fitting(level, device)
  {
    if HasWheel(device) {
      assert PacketSize(device) == 4;
    } else {
      assert PacketSize(device) == 3;
    }
  }

  lemma EnteredWhole(was: seq<Octet>, device: int, buttons: Octet, wheel: int, pieces: seq<(Piece, Piece)>)
    requires buttons < 8 && |was| < SIZE && |pieces| <= Fitting(|was|, device)
    ensures Entered(was, device, buttons, wheel, pieces) == was + Packets(device, buttons, wheel, pieces)
  {
    assert pieces[..|pieces|] == pieces;
  }

  lemma EnteredLess(was: seq<Octet>, device: int, buttons: Octet, wheel: int,
                    pieces: seq<(Piece, Piece)>, piece: (Piece, Piece))
    requires buttons < 8 && |was| < SIZE && |pieces| < Fitting(|was|, device)
    ensures Entered(was, device, buttons, wheel, pieces + [piece])
            == Entered(was, device, buttons, wheel, pieces)
               + Packet(device, piece.0, piece.1, buttons, if pieces == [] then wheel else 0)
  {
    EnteredWhole(was, device, buttons, wheel, pieces);
    EnteredWhole(was, device, buttons, wheel, pieces + [piece]);
    PacketsNext(device, buttons, wheel, pieces, piece);
  }

  lemma EnteredAll(was: seq<Octet>, device: int, buttons: Octet, wheel: int,
                   pieces: seq<(Piece, Piece)>, piece: (Piece, Piece))
    requires buttons < 8 && |was| < SIZE && |pieces| >= Fitting(|was|, device)
    ensures Entered(was, device, buttons, wheel, pieces + [piece]) == Entered(was, device, buttons, wheel, pieces)
  {
    var m := Fitting(|was|, device);
    assert (pieces + [piece])[..m] == pieces[..m];
  }

  lemma EnteredSize(was: seq<Octet>, device: int, buttons: Octet, wheel: int, pieces: seq<(Piece, Piece)>)
    requires buttons < 8 && |was| < SIZE
    ensures |Entered(was, device, buttons, wheel, pieces)|
            == |was| + Least(|pieces|, Fitting(|was|, device)) * PacketSize(device)
  {
  }

  /** The next piece goes in exactly when there is room for it. */
  lemma EnteredNext(was: seq<Octet>, device: int, buttons: Octet, wheel: int,
                    pieces: seq<(Piece, Piece)>, piece: (Piece, Piece))
    requires buttons < 8 && |was| < SIZE
    ensures var p := Packet(device, piece.0, piece.1, buttons, if pieces == [] then wheel else 0);
            var now := Entered(was, device, buttons, wheel, pieces);
            |p| == PacketSize(device)
            && Entered(was, device, buttons, wheel, pieces + [piece]) == if |now| < SIZE - |p| then now + p else now
  {
    RoomForOne(|was|, device, |pieces|);
    EnteredSize(was, device, buttons, wheel, pieces);
    if |pieces| < Fitting(|was|, device) {
      EnteredLess(was, device, buttons, wheel, pieces, piece);
    } else {
      EnteredAll(was, device, buttons, wheel, pieces, piece);
    }
  }

  function Size(d: int): nat {
    if d < 0 then -d else d
  }

  function SumX(pieces: seq<(Piece, Piece)>): int {
    if pieces == [] then 0 else SumX(pieces[..|pieces|-1]) + pieces[|pieces|-1].0
  }

  function SumY(pieces: seq<(Piece, Piece)>): int {
    if pieces == [] then 0 else SumY(pieces[..|pieces|-1]) + pieces[|pieces|-1].1
  }

  lemma SumNext(pieces: seq<(Piece, Piece)>, x: Piece, y: Piece)
    ensures SumX(pieces + [(x, y)]) == SumX(pieces) + x && SumY(pieces + [(x, y)]) == SumY(pieces) + y
  {
    assert (pieces + [(x, y)])[..|pieces|] == pieces;
  }
}
