/**
 The tables and the registry changed in place: unloading compacts, merging appends, and a
 finished guest load is handled by `Poll`.
 */
module ModuleLoader {
  import opened Compaction
  import opened ModuleTables
  import opened ModuleRegistry

  class DebugInfo {
    var loaded: bool
    var segs: seq<Seg>
    var spans: seq<Span>
    var next: nat
    var parsed: seq<Parsed>

    function Current(): Tables
      reads this
    {
      Tables(loaded, segs, spans, next)
    }

    function State(): Loader
      reads this
    {
      Loader(Current(), parsed)
    }

    constructor ()
      ensures State() == Loader(Empty, [])
    {
      loaded, segs, spans, next, parsed := false, [], [], 0, [];
    }

    method UnloadRange(r: Range)
      modifies this`segs, this`spans
      ensures Current() == Unloaded(old(Current()), r)
    {
      if !loaded {
        return;
      }
      var keptSpans := Compact(spans, SpanStays(segs, r));
      var keptSegs := Compact(segs, SegStays(r));
      spans, segs := keptSpans, keptSegs;
    }

    /** Read the records there are, under IDs above every one handed out before. */
    method ReadRecords(dbg: Path, f: File)
      requires WellFormed(f)
      modifies this`segs, this`spans, this`next
      ensures Current() == Merged(old(Current()), dbg, f)
    {
      ghost var t := Current();
      var base := next;
      var k := 0;
      while k < |f.segs|
        invariant k <= |f.segs| && next == base + k && spans == t.spans
        invariant segs == t.segs + NewSegs(t, dbg, f, k)
      {
        segs := segs + [Seg(base + k, dbg, k, f.segs[k].start, f.segs[k].size)];
        next := next + 1;
        k := k + 1;
      }
      var j := 0;
      while j < |f.spans|
        invariant j <= |f.spans| && next == base + |f.segs| && segs == t.segs + NewSegs(t, dbg, f, |f.segs|)
        invariant spans == t.spans + NewSpans(t, dbg, f, j)
      {
        var sp := f.spans[j];
        var seg := Seg(base + sp.seg, dbg, sp.seg, f.segs[sp.seg].start, f.segs[sp.seg].size);
        spans := spans + [Span(seg, j, sp.offset)];
        j := j + 1;
      }
    }

    /** The range the segments cover, as a first pass over the file finds it. */
    method PeekRange(f: File) returns (found: bool, r: Range)
      ensures r == RangeOf(f) && found == Described(f)
    {
      r := Range(TOP, 0);
      var k := 0;
      while k < |f.segs|
        invariant k <= |f.segs| && r == Scanned(f, k)
      {
        var s := f.segs[k];
        if s.size != 0 && s.start <= TOP {
          var last := if s.start + s.size - 1 > TOP then TOP else s.start + s.size - 1;
          r := Range(if s.start < r.start then s.start else r.start, if last > r.end then last else r.end);
        }
        k := k + 1;
      }
      found := r.start <= r.end;
    }

    method AlreadyParsed(path: Path) returns (found: bool)
      ensures found == Registered(State(), path)
    {
      var i := 0;
      while i < |parsed|
        invariant i <= |parsed|
        invariant forall j :: 0 <= j < i ==> parsed[j].path != path
      {
        if parsed[i].path == path {
          return true;
        }
        i := i + 1;
      }
      found := false;
    }

    method ForgetOverlapping(r: Range)
      modifies this`parsed
      ensures parsed == Filter(NotOverlapping(r), old(parsed))
    {
      parsed := Compact(parsed, NotOverlapping(r));
    }

    method DiscardRange(addr: nat, size: nat)
      modifies this
      ensures State() == Discarded(old(State()), addr, size)
    {
      if size == 0 {
        return;
      }
      var end := EndOf(addr, size);
      ghost var t, was := Current(), parsed;
      var kept: seq<Parsed> := [];
      var i := 0;
      while i < |parsed|
        invariant i <= |parsed| && parsed == was
        invariant kept == Filter(NotCovered(addr, end), was[..i])
        invariant Current() == UnloadedEach(t, Filter(Covered(addr, end), was[..i]))
      {
        DiscardNext(t, was, addr, end, i);
        if addr <= parsed[i].range.start && parsed[i].range.end <= end {
          UnloadRange(parsed[i].range);
        } else {
          kept := kept + [parsed[i]];
        }
        i := i + 1;
      }
      assert was[..i] == was;
      parsed := kept;
    }

    /** Make room, read the .dbg, and register the program if that was accepted. */
    method MergeFile(e: Load, range: Range)
      requires Possible(e) && Merges(State(), e) && range == RangeOf(e.file)
      modifies this
      ensures State() == Stepped(old(State()), e)
    {
      UnloadRange(range);
      if e.readable {
        ReadRecords(DbgPath(e.path), e.file);
      }
      ForgetOverlapping(range);
      if e.complete {
        loaded := true;
        parsed := parsed + [Parsed(e.path, range, e.file)];
      }
    }

    /** One finished load, with what was beside it to read. */
    method Poll(e: Load)
      requires Possible(e)
      modifies this
      ensures State() == Stepped(old(State()), e)
    {
      if IsDbg(e.path) {
        DiscardRange(e.addr, e.size);
        return;
      }
      var known := AlreadyParsed(e.path);
      if !known {
        var found, range := PeekRange(e.file);
        if !found || !Nameable(e.path) {
          DiscardRange(e.addr, e.size);
        } else {
          MergeFile(e, range);
        }
      }
    }
  }

  /** One registry entry more: unloaded and forgotten, or kept. */
  lemma DiscardNext(t: Tables, was: seq<Parsed>, addr: nat, end: nat, i: nat)
    requires i < |was|
    ensures var p := was[i];
            var gone, kept := Filter(Covered(addr, end), was[..i]), Filter(NotCovered(addr, end), was[..i]);
            var gone', kept' := Filter(Covered(addr, end), was[..i+1]), Filter(NotCovered(addr, end), was[..i+1]);
            if addr <= p.range.start && p.range.end <= end
            then kept' == kept
                 && UnloadedEach(t, gone') == Unloaded(UnloadedEach(t, gone), p.range)
            else kept' == kept + [p] && gone' == gone
  {
    FilterNext(NotCovered(addr, end), was, i);
    FilterNext(Covered(addr, end), was, i);
    var gone := Filter(Covered(addr, end), was[..i]);
    assert (gone + [was[i]])[..|gone|] == gone;
  }
}
