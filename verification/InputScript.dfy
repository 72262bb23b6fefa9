/**
 Scripted input: events kept in frame order, ties in the order they were written, and
 played back by a hook called once a frame. What an event does is not modelled.
 */
module InputScript {
  import opened Compaction

  datatype Event = Event(frame: nat, what: int)

  predicate Ordered(s: seq<Event>) {
    forall i, j :: 0 <= i < j < |s| ==> s[i].frame <= s[j].frame
  }

  /** After any event already on the same frame. */
  function Inserted(s: seq<Event>, e: Event): seq<Event> {
    if s != [] && s[|s|-1].frame > e.frame then Inserted(s[..|s|-1], e) + [s[|s|-1]] else s + [e]
  }

  /** The events on one frame, in order. */
  function OnFrame(s: seq<Event>, frame: nat): seq<Event> {
    if s == [] then []
    else OnFrame(s[..|s|-1], frame) + if s[|s|-1].frame == frame then [s[|s|-1]] else []
  }

  function IsOn(frame: nat): Event -> bool {
    (e: Event) => e.frame == frame
  }

  /** They are every event of that frame, each as often as it is there and in the order it is. */
  lemma OnFrameSifts(s: seq<Event>, frame: nat)
    ensures Sifted(OnFrame(s, frame), s, IsOn(frame))
  {
    OnFrameFilters(s, frame);
    FilterSifts(IsOn(frame), s);
  }

  lemma {:induction false} OnFrameFilters(s: seq<Event>, frame: nat)
    ensures OnFrame(s, frame) == Filter(IsOn(frame), s)
  {
    if s != [] {
      OnFrameFilters(s[..|s|-1], frame);
    }
  }

  lemma OnFrameAppend(s: seq<Event>, e: Event, frame: nat)
    ensures OnFrame(s + [e], frame) == OnFrame(s, frame) + if e.frame == frame then [e] else []
  {
    assert (s + [e])[..|s|] == s;
  }

  /** Inserting adds the event last on its frame and leaves every other frame alone. */
  lemma {:induction false} InsertedOnFrame(s: seq<Event>, e: Event, frame: nat)
    ensures OnFrame(Inserted(s, e), frame) == OnFrame(s, frame) + if e.frame == frame then [e] else []
  {
    if s != [] && s[|s|-1].frame > e.frame {
      var front, last := s[..|s|-1], s[|s|-1];
      assert s == front + [last];
      InsertedOnFrame(front, e, frame);
      OnFrameAppend(Inserted(front, e), last, frame);
      OnFrameAppend(front, last, frame);
    } else {
      OnFrameAppend(s, e, frame);
    }
  }

  /** Where the event goes: everything before it is no later, everything after it is later. */
  function Place(s: seq<Event>, e: Event): (at: nat)
    ensures at <= |s|
    ensures at > 0 ==> s[at-1].frame <= e.frame
    ensures forall i :: at <= i < |s| ==> s[i].frame > e.frame
  {
    if s != [] && s[|s|-1].frame > e.frame then Place(s[..|s|-1], e) else |s|
  }

  lemma {:induction false} InsertedAt(s: seq<Event>, e: Event)
    ensures Inserted(s, e) == s[..Place(s, e)] + [e] + s[Place(s, e)..]
  {
    if s != [] && s[|s|-1].frame > e.frame {
      var front := s[..|s|-1];
      InsertedAt(front, e);
      assert s[..Place(s, e)] == front[..Place(s, e)];
      assert s[Place(s, e)..] == front[Place(s, e)..] + [s[|s|-1]];
    }
  }

  lemma {:induction false} PlaceIs(s: seq<Event>, e: Event, at: nat)
    requires at <= |s| && (at > 0 ==> s[at-1].frame <= e.frame)
    requires forall i :: at <= i < |s| ==> s[i].frame > e.frame
    ensures at == Place(s, e)
  {
    if at < |s| {
      PlaceIs(s[..|s|-1], e, at);
    }
  }

  lemma InsertedOrdered(s: seq<Event>, e: Event)
    requires Ordered(s)
    ensures Ordered(Inserted(s, e))
  {
    InsertedAt(s, e);
    var at := Place(s, e);
    forall i | 0 <= i < at
      ensures s[i].frame <= e.frame
    {
      assert s[i].frame <= s[at-1].frame;
    }
  }

  // ---- Playback ----------------------------------------------------------------------------

  /** The events and the cursor; frames up to `past` have been called. */
  datatype Script = Script(events: seq<Event>, next: nat)

  /** Nothing behind the cursor is still to come. */
  ghost predicate Played(s: Script, past: nat) {
    s.next <= |s.events| && Ordered(s.events)
    && forall i :: 0 <= i < s.next ==> s.events[i].frame <= past
  }

  lemma {:induction false} OnFrameNone(s: seq<Event>, frame: nat)
    requires forall i :: 0 <= i < |s| ==> s[i].frame != frame
    ensures OnFrame(s, frame) == []
  {
    if s != [] {
      OnFrameNone(s[..|s|-1], frame);
    }
  }

  lemma {:induction false} OnFrameAll(s: seq<Event>, frame: nat)
    requires forall i :: 0 <= i < |s| ==> s[i].frame == frame
    ensures OnFrame(s, frame) == s
  {
    if s != [] {
      OnFrameAll(s[..|s|-1], frame);
      assert s == s[..|s|-1] + [s[|s|-1]];
    }
  }

  lemma {:induction false} OnFrameJoin(a: seq<Event>, b: seq<Event>, frame: nat)
    ensures OnFrame(a + b, frame) == OnFrame(a, frame) + OnFrame(b, frame)
  {
    if b == [] {
      assert a + b == a;
    } else {
      assert (a + b)[..|a+b|-1] == a + b[..|b|-1];
      OnFrameJoin(a, b[..|b|-1], frame);
    }
  }

  /** What lies between two cursors is the frame's events when nothing else is on it. */
  lemma FrameSlice(s: seq<Event>, from: nat, to: nat, frame: nat)
    requires from <= to <= |s|
    requires forall i :: 0 <= i < from ==> s[i].frame != frame
    requires forall i :: from <= i < to ==> s[i].frame == frame
    requires forall i :: to <= i < |s| ==> s[i].frame != frame
    ensures s[from..to] == OnFrame(s, frame)
  {
    assert s == s[..from] + s[from..to] + s[to..];
    OnFrameNone(s[..from], frame);
    OnFrameAll(s[from..to], frame);
    OnFrameNone(s[to..], frame);
    OnFrameJoin(s[..from], s[from..to], frame);
    OnFrameJoin(s[..from] + s[from..to], s[to..], frame);
  }

  class Player {
    var events: seq<Event>
    var next: nat

    ghost predicate Valid(past: nat)
      reads this
    {
      Played(Script(events, next), past)
    }

    constructor ()
      ensures Valid(0) && events == []
    {
      events, next := [], 0;
    }

    /** From the end, past everything later. */
    method PlaceFor(e: Event) returns (at: nat)
      ensures at <= |events| && (at > 0 ==> events[at-1].frame <= e.frame)
      ensures forall i :: at <= i < |events| ==> events[i].frame > e.frame
    {
      at := |events|;
      while at > 0 && events[at-1].frame > e.frame
        invariant at <= |events|
        invariant forall i :: at <= i < |events| ==> events[i].frame > e.frame
      {
        at := at - 1;
      }
    }

    /** The event goes in behind everything on its frame or an earlier one; the cursor does not move. */
    method Push(e: Event, ghost past: nat)
      requires Valid(past)
      modifies this`events
      ensures Valid(past) && events == Inserted(old(events), e)
    {
      var at := PlaceFor(e);
      PlaceIs(events, e, at);
      InsertedAt(events, e);
      InsertedOrdered(events, e);
      CursorKept(events, e, next, past);
      events := events[..at] + [e] + events[at..];
    }

    /** Pass over the events of frames before this one. */
    method SkipTo(frame: nat, ghost past: nat)
      requires Valid(past) && past < frame
      modifies this`next
      ensures next <= |events|
      ensures forall i :: 0 <= i < next ==> events[i].frame < frame
      ensures forall i :: next <= i < |events| ==> events[i].frame >= frame
    {
      while next < |events| && events[next].frame < frame
        invariant next <= |events|
        invariant forall i :: 0 <= i < next ==> events[i].frame < frame
      {
        next := next + 1;
      }
    }

    /** Everything written for this frame. */
    method Frame(frame: nat, ghost past: nat) returns (fired: seq<Event>)
      requires Valid(past) && past < frame
      modifies this`next
      ensures Valid(frame)
      ensures fired == OnFrame(events, frame)
    {
      SkipTo(frame, past);
      ghost var from := next;
      fired := [];
      while next < |events| && events[next].frame == frame
        invariant from <= next <= |events|
        invariant forall i :: from <= i < next ==> events[i].frame == frame
        invariant fired == events[from..next]
      {
        fired := fired + [events[next]];
        next := next + 1;
      }
      assert forall i :: from <= i < |events| ==> events[i].frame >= frame;
      Beyond(events, next, frame);
      FrameSlice(events, from, next, frame);
    }
  }

  lemma Beyond(s: seq<Event>, next: nat, frame: nat)
    requires Ordered(s) && next <= |s| && (next < |s| ==> s[next].frame > frame)
    ensures forall i :: next <= i < |s| ==> s[i].frame > frame
  {
  }

  /** An event inserted behind the cursor pushes nothing back over it that is still to come. */
  lemma CursorKept(s: seq<Event>, e: Event, next: nat, past: nat)
    requires Played(Script(s, next), past)
    ensures |Inserted(s, e)| == |s| + 1
    ensures forall i :: 0 <= i < next ==> Inserted(s, e)[i].frame <= past
  {
    InsertedAt(s, e);
  }

  // ---- Whole runs ------------------------------------------------------------------------

  datatype Op = Append(e: Event) | Call(frame: nat)

  /** Frames are called in increasing order. */
  predicate Rising(ops: seq<Op>, past: nat)
    decreases |ops|
  {
    ops == [] ||
    if ops[0].Call? then past < ops[0].frame && Rising(ops[1..], ops[0].frame) else Rising(ops[1..], past)
  }

  /** The events fired, call by call, by a player that has these events. */
  function Fired(events: seq<Event>, ops: seq<Op>): seq<seq<Event>>
    decreases |ops|
  {
    if ops == [] then []
    else if ops[0].Call? then [OnFrame(events, ops[0].frame)] + Fired(events, ops[1..])
    else Fired(Inserted(events, ops[0].e), ops[1..])
  }

  /** The events appended by now, in the order they were written. */
  function Written(done: seq<Event>, ops: seq<Op>): seq<seq<Event>>
    decreases |ops|
  {
    if ops == [] then []
    else if ops[0].Call? then [OnFrame(done, ops[0].frame)] + Written(done, ops[1..])
    else Written(done + [ops[0].e], ops[1..])
  }

  ghost predicate SameByFrame(events: seq<Event>, done: seq<Event>) {
    forall frame: nat :: OnFrame(events, frame) == OnFrame(done, frame)
  }

  /** Each call fires exactly the events written for its frame by then, in the order they were
      written, however appending and playing were interleaved. */
  lemma {:induction false} FiresWhatWasWritten(events: seq<Event>, done: seq<Event>, ops: seq<Op>)
    requires SameByFrame(events, done)
    ensures Fired(events, ops) == Written(done, ops)
    decreases |ops|
  {
    if ops != [] {
      if ops[0].Call? {
        FiresWhatWasWritten(events, done, ops[1..]);
      } else {
        var e := ops[0].e;
        forall frame: nat
          ensures OnFrame(Inserted(events, e), frame) == OnFrame(done + [e], frame)
        {
          InsertedOnFrame(events, e, frame);
          OnFrameAppend(done, e, frame);
          assert OnFrame(events, frame) == OnFrame(done, frame);
        }
        FiresWhatWasWritten(Inserted(events, e), done + [e], ops[1..]);
      }
    }
  }

  function CallFrames(ops: seq<Op>): seq<nat>
    decreases |ops|
  {
    if ops == [] then []
    else if ops[0].Call? then [ops[0].frame] + CallFrames(ops[1..]) else CallFrames(ops[1..])
  }

  lemma {:induction false} OnFrameOnly(s: seq<Event>, frame: nat, e: Event)
    requires e in OnFrame(s, frame)
    ensures e.frame == frame && e in s
  {
    if e in OnFrame(s[..|s|-1], frame) {
      OnFrameOnly(s[..|s|-1], frame, e);
    }
  }

  lemma {:induction false} FiredOnItsFrame(events: seq<Event>, ops: seq<Op>, i: nat)
    requires i < |Fired(events, ops)|
    ensures |CallFrames(ops)| == |Fired(events, ops)|
    ensures forall e :: e in Fired(events, ops)[i] ==> e.frame == CallFrames(ops)[i]
    decreases |ops|
  {
    if ops[0].Call? {
      if i > 0 {
        FiredOnItsFrame(events, ops[1..], i - 1);
      } else {
        FiredLength(events, ops);
        forall e | e in Fired(events, ops)[0]
          ensures e.frame == ops[0].frame
        {
          OnFrameOnly(events, ops[0].frame, e);
        }
      }
    } else {
      FiredOnItsFrame(Inserted(events, ops[0].e), ops[1..], i);
    }
  }

  lemma {:induction false} FiredLength(events: seq<Event>, ops: seq<Op>)
    ensures |CallFrames(ops)| == |Fired(events, ops)|
    decreases |ops|
  {
    if ops != [] {
      FiredLength(if ops[0].Call? then events else Inserted(events, ops[0].e), ops[1..]);
    }
  }

  lemma {:induction false} CallsRise(ops: seq<Op>, past: nat, i: nat, j: nat)
    requires Rising(ops, past) && i < j < |CallFrames(ops)|
    ensures past < CallFrames(ops)[i] < CallFrames(ops)[j]
    decreases |ops|
  {
    if !ops[0].Call? {
      CallsRise(ops[1..], past, i, j);
    } else if i > 0 {
      CallsRise(ops[1..], ops[0].frame, i - 1, j - 1);
    } else {
      CallAfter(ops[1..], ops[0].frame, j - 1);
    }
  }

  lemma {:induction false} CallAfter(ops: seq<Op>, past: nat, j: nat)
    requires Rising(ops, past) && j < |CallFrames(ops)|
    ensures past < CallFrames(ops)[j]
    decreases |ops|
  {
    if !ops[0].Call? {
      CallAfter(ops[1..], past, j);
    } else if j > 0 {
      CallAfter(ops[1..], ops[0].frame, j - 1);
    }
  }

  /** Nothing is ever fired by two calls. */
  lemma NeverReplayed(events: seq<Event>, ops: seq<Op>, past: nat, i: nat, j: nat, e: Event)
    requires Rising(ops, past) && i < j < |Fired(events, ops)| && e in Fired(events, ops)[i]
    ensures e !in Fired(events, ops)[j]
  {
    FiredOnItsFrame(events, ops, i);
    FiredOnItsFrame(events, ops, j);
    CallsRise(ops, past, i, j);
  }
}
