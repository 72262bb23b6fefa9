/**
 The frames the profiler remembers: the recent ones in a ring, and the worst eight, kept
 sorted as frames come in.
 */
module HostProfFrames {
  import opened Numbers
  import opened Compaction

  const RING: nat := 1024
  const WORST: nat := 8

  datatype Frame = Frame(number: nat, wall: nat, busy: nat, cycles: nat, uiFrames: nat, us: seq<nat>)

  // ---- The worst frames ------------------------------------------------------------------------

  predicate Descending(s: seq<Frame>) {
    forall i, j :: 0 <= i < j < |s| ==> s[i].busy >= s[j].busy
  }

  /** Into its place, after every frame at least as busy. */
  function Ranked(s: seq<Frame>, f: Frame): seq<Frame> {
    if s != [] && s[|s|-1].busy < f.busy then Ranked(s[..|s|-1], f) + [s[|s|-1]] else s + [f]
  }

  /** Every frame there has been, busiest first, ties in the order they came. */
  function Ranking(frames: seq<Frame>): seq<Frame> {
    if frames == [] then [] else Ranked(Ranking(frames[..|frames|-1]), frames[|frames|-1])
  }

  function Of(frames: seq<Frame>, busy: nat): seq<Frame> {
    if frames == [] then []
    else Of(frames[..|frames|-1], busy) + if frames[|frames|-1].busy == busy then [frames[|frames|-1]] else []
  }

  function AsBusy(busy: nat): Frame -> bool {
    (f: Frame) => f.busy == busy
  }

  /** They are every frame of that busy time, in order. */
  lemma OfSifts(frames: seq<Frame>, busy: nat)
    ensures Sifted(Of(frames, busy), frames, AsBusy(busy))
  {
    OfFilters(frames, busy);
    FilterSifts(AsBusy(busy), frames);
  }

  lemma {:induction false} OfFilters(frames: seq<Frame>, busy: nat)
    ensures Of(frames, busy) == Filter(AsBusy(busy), frames)
  {
    if frames != [] {
      OfFilters(frames[..|frames|-1], busy);
    }
  }

  lemma OfAppend(s: seq<Frame>, f: Frame, busy: nat)
    ensures Of(s + [f], busy) == Of(s, busy) + if f.busy == busy then [f] else []
  {
    assert (s + [f])[..|s|] == s;
  }

  lemma {:induction false} RankedMembers(s: seq<Frame>, f: Frame)
    ensures |Ranked(s, f)| == |s| + 1
    ensures forall g :: g in Ranked(s, f) <==> g == f || g in s
  {
    if s != [] && s[|s|-1].busy < f.busy {
      assert s == s[..|s|-1] + [s[|s|-1]];
      RankedMembers(s[..|s|-1], f);
    }
  }

  lemma DescendingAppend(s: seq<Frame>, f: Frame)
    ensures Descending(s + [f]) <==> Descending(s) && forall g :: g in s ==> g.busy >= f.busy
  {
    var t := s + [f];
    if Descending(t) {
      forall i, j | 0 <= i < j < |s|
        ensures s[i].busy >= s[j].busy
      {
        assert t[i] == s[i] && t[j] == s[j];
      }
      forall g | g in s
        ensures g.busy >= f.busy
      {
        var i :| 0 <= i < |s| && s[i] == g;
        assert t[i] == g && t[|s|] == f;
      }
    }
  }

  lemma {:induction false} RankedDescending(s: seq<Frame>, f: Frame)
    requires Descending(s)
    ensures Descending(Ranked(s, f))
  {
    if s != [] {
      var front, last := s[..|s|-1], s[|s|-1];
      assert s == front + [last];
      DescendingAppend(front, last);
      if last.busy < f.busy {
        RankedDescending(front, f);
        RankedMembers(front, f);
        DescendingAppend(Ranked(front, f), last);
      } else {
        DescendingAppend(s, f);
      }
    }
  }

  lemma {:induction false} RankedOf(s: seq<Frame>, f: Frame, busy: nat)
    ensures Of(Ranked(s, f), busy) == Of(s, busy) + if f.busy == busy then [f] else []
  {
    if s != [] && s[|s|-1].busy < f.busy {
      var front, last := s[..|s|-1], s[|s|-1];
      assert s == front + [last];
      RankedOf(front, f, busy);
      OfAppend(Ranked(front, f), last, busy);
      OfAppend(front, last, busy);
    } else {
      OfAppend(s, f, busy);
    }
  }

  /** The ranking is the stable descending sort: sorted, and within one busy time in order of arrival. */
  lemma {:induction false} RankingIsStableSort(frames: seq<Frame>, busy: nat)
    ensures Descending(Ranking(frames)) && |Ranking(frames)| == |frames|
    ensures Of(Ranking(frames), busy) == Of(frames, busy)
  {
    if frames != [] {
      var front, last := frames[..|frames|-1], frames[|frames|-1];
      RankingIsStableSort(front, busy);
      RankedMembers(Ranking(front), last);
      RankedDescending(Ranking(front), last);
      RankedOf(Ranking(front), last, busy);
    }
  }

  /** What the bounded list becomes: the new frame in, the least busy out. */
  function Noted(worst: seq<Frame>, f: Frame): seq<Frame> {
    if |worst| < WORST then Ranked(worst, f)
    else if f.busy > worst[|worst|-1].busy then Ranked(worst[..|worst|-1], f)
    else worst
  }

  lemma {:induction false} RankedTake(s: seq<Frame>, f: Frame, k: nat)
    requires Descending(s) && 0 < k <= |s|
    ensures |Ranked(s, f)| == |s| + 1
    ensures Ranked(s, f)[..k] == if s[k-1].busy >= f.busy then s[..k] else Ranked(s[..k-1], f)
    decreases |s|, 1
  {
    RankedMembers(s, f);
    var front, last := s[..|s|-1], s[|s|-1];
    assert s[k-1].busy >= last.busy;
    if last.busy < f.busy {
      RankedMembers(front, f);
      if k < |s| {
        RankedTakeFront(s, f, k);
      }
    }
  }

  lemma RankedTakeFront(s: seq<Frame>, f: Frame, k: nat)
    requires Descending(s) && 0 < k < |s| && s[|s|-1].busy < f.busy
    ensures |Ranked(s, f)| == |s| + 1
    ensures Ranked(s, f)[..k] == if s[k-1].busy >= f.busy then s[..k] else Ranked(s[..k-1], f)
    decreases |s|, 0
  {
    var front := s[..|s|-1];
    RankedMembers(s, f);
    RankedTake(front, f, k);
    assert front[..k] == s[..k] && front[..k-1] == s[..k-1];
    assert Ranked(s, f)[..k] == Ranked(front, f)[..k];
  }

  /** Keeping only eight never loses one of the worst eight. */
  lemma NotedIsRanking(s: seq<Frame>, f: Frame)
    requires Descending(s)
    ensures |Ranked(s, f)| == |s| + 1
    ensures Noted(s[..Least(WORST, |s|)], f) == Ranked(s, f)[..Least(WORST, |s| + 1)]
  {
    RankedMembers(s, f);
    if |s| < WORST {
      assert s[..|s|] == s && Ranked(s, f)[..|s|+1] == Ranked(s, f);
    } else {
      RankedTake(s, f, WORST);
      assert s[..WORST][..WORST-1] == s[..WORST-1];
    }
  }

  /** A frame goes in front of everything less busy than it at the end of the list. */
  lemma {:induction false} RankedAt(list: seq<Frame>, f: Frame, i: nat)
    requires i <= |list| && (i > 0 ==> list[i-1].busy >= f.busy)
    requires forall j :: i <= j < |list| ==> list[j].busy < f.busy
    ensures Ranked(list, f) == list[..i] + [f] + list[i..]
  {
    if i < |list| {
      var front := list[..|list|-1];
      RankedAt(front, f, i);
      assert front[..i] == list[..i];
      assert list[i..] == front[i..] + [list[|list|-1]];
    } else {
      assert list[..i] == list && list[i..] == [];
    }
  }

  /** Element by element. */
  lemma RankedHere(list: seq<Frame>, f: Frame, i: nat, result: seq<Frame>)
    requires i <= |list| && (i > 0 ==> list[i-1].busy >= f.busy)
    requires forall j :: i <= j < |list| ==> list[j].busy < f.busy
    requires |result| == |list| + 1 && result[i] == f
    requires forall j :: 0 <= j < i ==> result[j] == list[j]
    requires forall j :: i < j <= |list| ==> result[j] == list[j-1]
    ensures result == Ranked(list, f)
  {
    RankedAt(list, f, i);
  }

  class FrameLog {
    const ring: array<Frame>
    var head: nat
    var count: nat
    const worst: array<Frame>
    var nworst: nat
    ghost var frames: seq<Frame>

    /** The ring holds the last 1024 of these frames, each at its number. */
    ghost predicate RingHolds(fs: seq<Frame>)
      reads this, ring
    {
      ring.Length == RING && head == |fs| % RING && count == Least(RING, |fs|)
      && forall i :: |fs| - count <= i < |fs| ==> ring[i % RING] == fs[i]
    }

    /** The list is the worst eight of them. */
    ghost predicate WorstHolds(fs: seq<Frame>)
      reads this, worst
    {
      worst.Length == WORST && nworst == Least(WORST, |fs|) && |Ranking(fs)| == |fs|
      && worst[..nworst] == Ranking(fs)[..nworst]
    }

    ghost predicate Valid()
      reads this, ring, worst
    {
      ring != worst && RingHolds(frames) && WorstHolds(frames)
    }

    constructor (none: Frame)
      ensures Valid() && fresh(ring) && fresh(worst) && frames == []
    {
      ring := new Frame[RING](_ => none);
      worst := new Frame[WORST](_ => none);
      head, count, nworst, frames := 0, 0, 0, [];
    }

    /** Everything less busy than the newcomer, at the end of the list, moved down one. */
    method MoveDown(f: Frame, at: nat, ghost list: seq<Frame>) returns (i: nat)
      requires at < worst.Length && list == worst[..at]
      modifies worst
      ensures i <= at && (i > 0 ==> list[i-1].busy >= f.busy)
      ensures forall j :: i <= j < at ==> list[j].busy < f.busy
      ensures forall j :: 0 <= j < i ==> worst[j] == list[j]
      ensures forall j :: i < j <= at ==> worst[j] == list[j-1]
      ensures forall j :: at < j < worst.Length ==> worst[j] == old(worst[j])
    {
      i := at;
      while i > 0 && worst[i-1].busy < f.busy
        invariant i <= at
        invariant forall j :: 0 <= j < i ==> worst[j] == list[j]
        invariant forall j :: i < j <= at ==> worst[j] == list[j-1]
        invariant forall j :: at < j < worst.Length ==> worst[j] == old(worst[j])
        invariant forall j :: i <= j < at ==> list[j].busy < f.busy
      {
        worst[i] := worst[i-1];
        i := i - 1;
      }
    }

    /** Into the list at its place. */
    method Insert(f: Frame, at: nat, ghost list: seq<Frame>)
      requires at < worst.Length && list == worst[..at]
      modifies worst
      ensures worst[..at+1] == Ranked(list, f)
      ensures forall i :: at < i < worst.Length ==> worst[i] == old(worst[i])
    {
      var i := MoveDown(f, at, list);
      worst[i] := f;
      RankedHere(list, f, i, worst[..at+1]);
    }

    method NoteWorst(f: Frame)
      requires WorstHolds(frames)
      modifies worst, this`nworst
      ensures WorstHolds(frames + [f])
    {
      ghost var was := worst[..nworst];
      RankingIsStableSort(frames, 0);
      NotedIsRanking(Ranking(frames), f);
      assert (frames + [f])[..|frames|] == frames;
      if nworst < WORST {
        Insert(f, nworst, was);
        nworst := nworst + 1;
      } else if f.busy > worst[nworst-1].busy {
        assert worst[..WORST-1] == was[..WORST-1];
        Insert(f, WORST - 1, was[..WORST-1]);
      }
      assert worst[..nworst] == Noted(was, f);
    }

    method NoteRecent(f: Frame)
      requires RingHolds(frames)
      modifies ring, this`head, this`count
      ensures RingHolds(frames + [f])
    {
      ring[head] := f;
      NextHead(|frames|);
      head := (head + 1) % RING;
      if count < RING {
        count := count + 1;
      }
      var n := |frames|;
      forall i | n + 1 - count <= i < n
        ensures i % RING != n % RING
      {
        SlotsDiffer(i, n);
      }
    }

    method EndFrame(f: Frame)
      requires Valid()
      modifies this, ring, worst
      ensures Valid() && frames == old(frames) + [f]
    {
      NoteRecent(f);
      NoteWorst(f);
      frames := frames + [f];
    }

    /** The `k`-th most recent of the last 1024 frames, the newest being 0. */
    method Recent(k: int) returns (ok: bool, f: Frame)
      requires Valid() && count > 0
      ensures ok <==> 0 <= k < Least(RING, |frames|)
      ensures ok ==> f == frames[|frames| - 1 - k]
    {
      f := ring[0];
      ok := 0 <= k < count;
      if ok {
        SlotOfRecent(|frames|, k);
        f := ring[(head - 1 - k + 2 * RING) % RING];
      }
    }

    /** The worst frames, as many as there are and were asked for. */
    method Worst(max: nat) returns (out: seq<Frame>)
      requires Valid()
      ensures |Ranking(frames)| == |frames|
      ensures out == Ranking(frames)[..Least(max, Least(WORST, |frames|))]
    {
      var n := if max < nworst then max else nworst;
      out := worst[..n];
      assert worst[..nworst][..n] == worst[..n];
    }
  }

  lemma NextHead(n: nat)
    ensures (n % RING + 1) % RING == (n + 1) % RING
  {
  }

  lemma SlotsDiffer(i: nat, n: nat)
    requires i < n < i + RING
    ensures i % RING != n % RING
  {
    assert i == RING * (i / RING) + i % RING && n == RING * (n / RING) + n % RING;
  }

  lemma SlotOfRecent(n: nat, k: nat)
    requires k < RING && k < n
    ensures (n % RING - 1 - k + 2 * RING) % RING == (n - 1 - k) % RING
  {
    assert n == RING * (n / RING) + n % RING;
    var d := n % RING - 1 - k;
    assert n - 1 - k == RING * (n / RING) + d;
  }
}
