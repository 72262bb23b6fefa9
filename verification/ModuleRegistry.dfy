/**
 The registry of live modules: which programs' .dbg files are merged into the tables, over
 which ranges, as the guest loads programs over one another. A load is one finished
 transfer, with what there was to read beside it: nothing, part of a file, or all of it,
 and not necessarily what the same file held at the load before.
 */
module ModuleRegistry {
  import opened Compaction
  import opened ModuleTables
  import opened ModuleLemmas

  /** An entry, with the file as it was read for it. */
  datatype Parsed = Parsed(path: Path, range: Range, file: File)

  datatype Loader = Loader(tables: Tables, parsed: seq<Parsed>)

  /** A program loaded at `addr`; `file` is what its .dbg held, `readable` whether it could still be
      opened for the merge, `complete` whether the merge was accepted. */
  datatype Load = Load(path: Path, addr: nat, size: nat, file: File, readable: bool, complete: bool)

  predicate Possible(e: Load) {
    WellFormed(e.file) && (e.complete ==> e.readable)
  }

  // ---- What one load does ---------------------------------------------------------------

  predicate IsDbg(path: Path) {
    var n := |path|;
    n >= 4 && path[n-4] == '.' && path[n-3] in "dD" && path[n-2] in "bB" && path[n-1] in "gG"
  }

  predicate Registered(l: Loader, path: Path) {
    exists i :: 0 <= i < |l.parsed| && l.parsed[i].path == path
  }

  /** Not wholly inside what was overwritten. */
  function NotCovered(start: nat, end: nat): Parsed -> bool {
    (p: Parsed) => !(start <= p.range.start && p.range.end <= end)
  }

  function Covered(start: nat, end: nat): Parsed -> bool {
    (p: Parsed) => start <= p.range.start && p.range.end <= end
  }

  function NotOverlapping(r: Range): Parsed -> bool {
    (p: Parsed) => !(p.range.start <= r.end && r.start <= p.range.end)
  }

  function UnloadedEach(t: Tables, ps: seq<Parsed>): Tables
    decreases |ps|
  {
    if ps == [] then t else Unloaded(UnloadedEach(t, ps[..|ps|-1]), ps[|ps|-1].range)
  }

  /** The last address a transfer of `size` bytes can have covered. */
  function EndOf(addr: nat, size: nat): nat
    requires size > 0
  {
    if addr + (size - 1) > 0xFFFF then 0xFFFF else addr + (size - 1)
  }

  /** Something indescribable landed: the modules it wholly replaced are unloaded and forgotten. */
  function Discarded(l: Loader, addr: nat, size: nat): Loader {
    if size == 0 then l
    else
      var end := EndOf(addr, size);
      Loader(UnloadedEach(l.tables, Filter(Covered(addr, end), l.parsed)), Filter(NotCovered(addr, end), l.parsed))
  }

  /** Does this load get as far as unloading a range and reading a .dbg file? */
  predicate Merges(l: Loader, e: Load) {
    !IsDbg(e.path) && !Registered(l, e.path) && Nameable(e.path) && Described(e.file)
  }

  /** The tables after the unload and the read. */
  function Reread(t: Tables, e: Load): Tables
    requires WellFormed(e.file)
  {
    var cleared := Unloaded(t, RangeOf(e.file));
    if e.readable then Merged(cleared, DbgPath(e.path), e.file) else cleared
  }

  function Stepped(l: Loader, e: Load): Loader
    requires Possible(e)
  {
    if !IsDbg(e.path) && Registered(l, e.path) then l
    else if !Merges(l, e) then Discarded(l, e.addr, e.size)
    else
      var merged, rest := Reread(l.tables, e), Filter(NotOverlapping(RangeOf(e.file)), l.parsed);
      if e.complete then Loader(merged.(loaded := true), rest + [Parsed(e.path, RangeOf(e.file), e.file)])
      else Loader(merged, rest)
  }

  // ---- What every load keeps ----------------------------------------------------------------

  /** A registry entry stands for a module that is wholly there, over its own range. */
  ghost predicate Live(t: Tables, p: Parsed) {
    Described(p.file) && p.range == RangeOf(p.file) && Present(t, DbgPath(p.path), p.file)
  }

  ghost predicate Distinct(parsed: seq<Parsed>) {
    forall i, j :: 0 <= i < j < |parsed| ==>
      parsed[i].path != parsed[j].path && Apart(parsed[i].range, parsed[j].range)
  }

  ghost predicate Sound(l: Loader) {
    Numbered(l.tables) && Distinct(l.parsed)
    && (l.parsed != [] ==> l.tables.loaded)
    && forall p :: p in l.parsed ==> Live(l.tables, p)
  }

  lemma {:induction false} FilterDistinct(p: Parsed -> bool, s: seq<Parsed>)
    requires Distinct(s)
    ensures Distinct(Filter(p, s))
  {
    if s != [] {
      var front, last := s[..|s|-1], s[|s|-1];
      FilterDistinct(p, front);
      forall i | 0 <= i < |Filter(p, front)|
        ensures Filter(p, front)[i].path != last.path && Apart(Filter(p, front)[i].range, last.range)
      {
        FilterIn(p, front, Filter(p, front)[i]);
        var j :| 0 <= j < |front| && front[j] == Filter(p, front)[i];
        assert s[j] == front[j];
      }
    }
  }

  lemma {:induction false} UnloadedEachSound(t: Tables, ps: seq<Parsed>)
    requires Numbered(t)
    ensures Numbered(UnloadedEach(t, ps)) && UnloadedEach(t, ps).loaded == t.loaded
    ensures Origins(UnloadedEach(t, ps)) <= Origins(t)
    ensures OneCopy(t) ==> OneCopy(UnloadedEach(t, ps))
    decreases |ps|
  {
    if ps != [] {
      var front, last := ps[..|ps|-1], ps[|ps|-1];
      UnloadedEachSound(t, front);
      UnloadNumbered(UnloadedEach(t, front), last.range);
      UnloadOrigins(UnloadedEach(t, front), last.range);
      if OneCopy(t) {
        UnloadOneCopy(UnloadedEach(t, front), last.range);
      }
    }
  }

  lemma {:induction false} UnloadedEachLive(t: Tables, ps: seq<Parsed>, q: Parsed)
    requires Live(t, q) && forall p :: p in ps ==> Apart(q.range, p.range)
    ensures Live(UnloadedEach(t, ps), q)
    decreases |ps|
  {
    if ps != [] {
      var front, last := ps[..|ps|-1], ps[|ps|-1];
      assert last in ps;
      assert forall p :: p in front ==> p in ps;
      UnloadedEachLive(t, front, q);
      UnloadKeeps(UnloadedEach(t, front), DbgPath(q.path), q.file, last.range);
    }
  }

  lemma DiscardSound(l: Loader, addr: nat, size: nat)
    requires Sound(l)
    ensures Sound(Discarded(l, addr, size)) && Discarded(l, addr, size).tables.loaded == l.tables.loaded
    ensures Origins(Discarded(l, addr, size).tables) <= Origins(l.tables)
    ensures OneCopy(l.tables) ==> OneCopy(Discarded(l, addr, size).tables)
  {
    if size > 0 {
      var end := EndOf(addr, size);
      var gone, kept := Filter(Covered(addr, end), l.parsed), Filter(NotCovered(addr, end), l.parsed);
      UnloadedEachSound(l.tables, gone);
      FilterDistinct(NotCovered(addr, end), l.parsed);
      forall q | q in kept
        ensures q in l.parsed && Live(UnloadedEach(l.tables, gone), q)
      {
        FilterIn(NotCovered(addr, end), l.parsed, q);
        forall p | p in gone
          ensures Apart(q.range, p.range)
        {
          FilterIn(Covered(addr, end), l.parsed, p);
          var i :| 0 <= i < |l.parsed| && l.parsed[i] == q;
          var j :| 0 <= j < |l.parsed| && l.parsed[j] == p;
          assert i != j;
        }
        UnloadedEachLive(l.tables, gone, q);
      }
    }
  }

  /** The modules whose ranges are apart are still whole after the merge. */
  lemma RereadKeeps(l: Loader, e: Load)
    requires Sound(l) && Possible(e) && Merges(l, e)
    ensures Numbered(Reread(l.tables, e)) && Reread(l.tables, e).loaded == l.tables.loaded
    ensures forall q :: q in Filter(NotOverlapping(RangeOf(e.file)), l.parsed) ==>
              q in l.parsed && Apart(q.range, RangeOf(e.file)) && q.path != e.path && Live(Reread(l.tables, e), q)
  {
    var range := RangeOf(e.file);
    var cleared := Unloaded(l.tables, range);
    UnloadNumbered(l.tables, range);
    if e.readable {
      MergedNumbered(cleared, DbgPath(e.path), e.file);
    }
    forall q | q in Filter(NotOverlapping(range), l.parsed)
      ensures q in l.parsed && Apart(q.range, range) && q.path != e.path && Live(Reread(l.tables, e), q)
    {
      FilterIn(NotOverlapping(range), l.parsed, q);
      UnloadKeeps(l.tables, DbgPath(q.path), q.file, range);
      if e.readable {
        MergedKeeps(cleared, DbgPath(e.path), e.file, DbgPath(q.path), q.file);
      }
    }
  }

  lemma LoadedIrrelevant(t: Tables, p: Parsed)
    requires Live(t, p)
    ensures Live(t.(loaded := true), p)
  {
    var u, dbg := t.(loaded := true), DbgPath(p.path);
    forall k | 0 <= k < |p.file.segs| && Solid(p.file.segs[k])
      ensures SegThere(u, dbg, p.file, k)
    {
      assert SegThere(t, dbg, p.file, k);
    }
    forall j | 0 <= j < |p.file.spans| && Inside(p.file, j)
      ensures SpanThere(u, dbg, p.file, j)
    {
      assert SpanThere(t, dbg, p.file, j);
    }
  }

  lemma DistinctAppend(s: seq<Parsed>, p: Parsed)
    requires Distinct(s) && forall q :: q in s ==> q.path != p.path && Apart(q.range, p.range)
    ensures Distinct(s + [p])
  {
  }

  /** An accepted merge is registered beside the modules it did not displace. */
  lemma MergeSound(l: Loader, e: Load)
    requires Sound(l) && Possible(e) && Merges(l, e)
    ensures Sound(Stepped(l, e))
  {
    var merged, rest := Reread(l.tables, e), Filter(NotOverlapping(RangeOf(e.file)), l.parsed);
    RereadKeeps(l, e);
    FilterDistinct(NotOverlapping(RangeOf(e.file)), l.parsed);
    if e.complete {
      var now := Parsed(e.path, RangeOf(e.file), e.file);
      MergedPresent(Unloaded(l.tables, RangeOf(e.file)), DbgPath(e.path), e.file);
      DistinctAppend(rest, now);
      forall q | q in rest + [now]
        ensures Live(merged.(loaded := true), q)
      {
        LoadedIrrelevant(merged, q);
      }
    }
  }

  /** Before the first load there is nothing to be wrong. */
  lemma StartsSound()
    ensures Sound(Loader(Empty, [])) && OneCopy(Empty) && OneReading(Empty)
  {
  }

  /** Every load, whatever its file holds, keeps the registry sound: distinct programs, ranges
      apart, every registered module wholly there. */
  lemma StepSound(l: Loader, e: Load)
    requires Sound(l) && Possible(e)
    ensures Sound(Stepped(l, e))
  {
    if Merges(l, e) {
      MergeSound(l, e);
    } else {
      DiscardSound(l, e.addr, e.size);
    }
  }

  // ---- One reading, one copy ----------------------------------------------------------------

  /** The record is still there once the range has been unloaded; nothing is unloaded before the
      first success. */
  ghost predicate SegSurvives(t: Tables, r: Range, s: Seg) {
    s in t.segs && (t.loaded ==> SegStays(r)(s))
  }

  ghost predicate SpanSurvives(t: Tables, r: Range, p: Span) {
    p in t.spans && (t.loaded ==> SpanStays(t.segs, r)(p))
  }

  /** The load reads a .dbg of which an earlier reading left something outside the range now
      read, or anything at all before the first success. */
  ghost predicate Mixes(l: Loader, e: Load) {
    var dbg, r := DbgPath(e.path), RangeOf(e.file);
    Merges(l, e) && e.readable
    && ((exists s :: SegSurvives(l.tables, r, s) && s.dbg == dbg)
        || exists p :: SpanSurvives(l.tables, r, p) && p.seg.dbg == dbg)
  }

  /** And what was left has the number of a record now read. */
  ghost predicate Doubles(l: Loader, e: Load) {
    var dbg, r := DbgPath(e.path), RangeOf(e.file);
    Merges(l, e) && e.readable
    && ((exists s :: SegSurvives(l.tables, r, s) && s.dbg == dbg && s.k < |e.file.segs|)
        || exists p :: SpanSurvives(l.tables, r, p) && p.seg.dbg == dbg && p.j < |e.file.spans|)
  }

  lemma MixesIs(l: Loader, e: Load)
    requires Merges(l, e) && e.readable
    ensures Mixes(l, e) <==> Leftover(Unloaded(l.tables, RangeOf(e.file)), DbgPath(e.path))
  {
    var r := RangeOf(e.file);
    var u := Unloaded(l.tables, r);
    forall s
      ensures s in u.segs <==> SegSurvives(l.tables, r, s)
    {
      UnloadedSeg(l.tables, r, s);
    }
    forall p
      ensures p in u.spans <==> SpanSurvives(l.tables, r, p)
    {
      UnloadedSpan(l.tables, r, p);
    }
  }

  lemma DoublesIs(l: Loader, e: Load)
    requires Merges(l, e) && e.readable
    ensures Doubles(l, e) <==> SomePresent(Unloaded(l.tables, RangeOf(e.file)), DbgPath(e.path), e.file)
  {
    var r, dbg := RangeOf(e.file), DbgPath(e.path);
    var u := Unloaded(l.tables, r);
    forall s
      ensures s in u.segs <==> SegSurvives(l.tables, r, s)
    {
      UnloadedSeg(l.tables, r, s);
    }
    forall p
      ensures p in u.spans <==> SpanSurvives(l.tables, r, p)
    {
      UnloadedSpan(l.tables, r, p);
    }
    if s :| SegSurvives(l.tables, r, s) && s.dbg == dbg && s.k < |e.file.segs| {
      assert HasSeg(u, dbg, s.k);
    }
    if p :| SpanSurvives(l.tables, r, p) && p.seg.dbg == dbg && p.j < |e.file.spans| {
      assert HasSpan(u, dbg, p.j);
    }
  }

  lemma DescribedNonempty(f: File)
    requires Described(f)
    ensures f.segs != []
  {
  }

  /** One load keeps everything of a .dbg from one reading exactly when nothing of an earlier
      reading is left when it reads. */
  lemma StepOneReading(l: Loader, e: Load)
    requires Sound(l) && Possible(e) && OneReading(l.tables)
    ensures OneReading(Stepped(l, e).tables) <==> !Mixes(l, e)
  {
    if Merges(l, e) {
      var r := RangeOf(e.file);
      UnloadNumbered(l.tables, r);
      UnloadOrigins(l.tables, r);
      assert Origins(Stepped(l, e).tables) == Origins(Reread(l.tables, e));
      if e.readable {
        DescribedNonempty(e.file);
        MixesIs(l, e);
        MergedOneReading(Unloaded(l.tables, r), DbgPath(e.path), e.file);
      }
    } else {
      DiscardSound(l, e.addr, e.size);
    }
  }

  /** One load keeps every record single exactly when no record of the same .dbg and number is
      left when it reads. */
  lemma StepOneCopy(l: Loader, e: Load)
    requires Sound(l) && Possible(e) && OneCopy(l.tables)
    ensures OneCopy(Stepped(l, e).tables) <==> !Doubles(l, e)
  {
    if Merges(l, e) {
      var r := RangeOf(e.file);
      UnloadOneCopy(l.tables, r);
      if e.readable {
        DoublesIs(l, e);
        MergedOneCopy(Unloaded(l.tables, r), DbgPath(e.path), e.file);
      }
    } else {
      DiscardSound(l, e.addr, e.size);
    }
  }

  // ---- Whole runs --------------------------------------------------------------------------

  predicate AllPossible(es: seq<Load>) {
    forall i :: 0 <= i < |es| ==> Possible(es[i])
  }

  function Run(l: Loader, es: seq<Load>): Loader
    requires AllPossible(es)
    decreases |es|
  {
    if es == [] then l else Run(Stepped(l, es[0]), es[1..])
  }

  lemma {:induction false} RunSound(l: Loader, es: seq<Load>)
    requires AllPossible(es) && Sound(l)
    ensures Sound(Run(l, es))
    decreases |es|
  {
    if es != [] {
      StepSound(l, es[0]);
      RunSound(Stepped(l, es[0]), es[1..]);
    }
  }

  ghost predicate OneReadingThroughout(l: Loader, es: seq<Load>)
    requires AllPossible(es)
    decreases |es|
  {
    OneReading(l.tables) && (es != [] ==> OneReadingThroughout(Stepped(l, es[0]), es[1..]))
  }

  ghost predicate SomeMixes(l: Loader, es: seq<Load>)
    requires AllPossible(es)
    decreases |es|
  {
    es != [] && (Mixes(l, es[0]) || SomeMixes(Stepped(l, es[0]), es[1..]))
  }

  ghost predicate OneCopyThroughout(l: Loader, es: seq<Load>)
    requires AllPossible(es)
    decreases |es|
  {
    OneCopy(l.tables) && (es != [] ==> OneCopyThroughout(Stepped(l, es[0]), es[1..]))
  }

  ghost predicate SomeDoubles(l: Loader, es: seq<Load>)
    requires AllPossible(es)
    decreases |es|
  {
    es != [] && (Doubles(l, es[0]) || SomeDoubles(Stepped(l, es[0]), es[1..]))
  }

  /** Over any run, what there is of each .dbg comes from one reading throughout, exactly when no
      load reads beside what an earlier one left. */
  lemma {:induction false} OneReadingExactly(l: Loader, es: seq<Load>)
    requires AllPossible(es) && Sound(l) && OneReading(l.tables)
    ensures OneReadingThroughout(l, es) <==> !SomeMixes(l, es)
    decreases |es|
  {
    if es != [] {
      StepSound(l, es[0]);
      StepOneReading(l, es[0]);
      if OneReading(Stepped(l, es[0]).tables) {
        OneReadingExactly(Stepped(l, es[0]), es[1..]);
      }
    }
  }

  /** Over any run no record is ever there twice, exactly when no load reads a record whose like
      an earlier one left. */
  lemma {:induction false} OneCopyExactly(l: Loader, es: seq<Load>)
    requires AllPossible(es) && Sound(l) && OneCopy(l.tables)
    ensures OneCopyThroughout(l, es) <==> !SomeDoubles(l, es)
    decreases |es|
  {
    if es != [] {
      StepSound(l, es[0]);
      StepOneCopy(l, es[0]);
      if OneCopy(Stepped(l, es[0]).tables) {
        OneCopyExactly(Stepped(l, es[0]), es[1..]);
      }
    }
  }
}
