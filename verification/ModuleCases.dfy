/**
 When the tables do hold something twice, and when they never do.
 */
module ModuleCases {
  import opened Compaction
  import opened ModuleTables
  import opened ModuleLemmas
  import opened ModuleRegistry

  const Start: Loader := Loader(Empty, [])

  /** A load that finds a .dbg to read. */
  predicate Finds(e: Load) {
    Possible(e) && !IsDbg(e.path) && Nameable(e.path) && Described(e.file) && e.readable
  }

  // ---- Before the first success ------------------------------------------------------------

  /** Two loads beside the same unfinished .dbg, before anything has succeeded, leave two copies:
      the same program twice, or two programs that differ in their extension. */
  lemma TwiceUnfinished(a: Load, b: Load)
    requires Finds(a) && Finds(b) && !a.complete && !b.complete && DbgPath(a.path) == DbgPath(b.path)
    ensures !OneCopy(Run(Start, [a, b]).tables)
  {
    var dbg := DbgPath(a.path);
    var once := Stepped(Start, a);
    assert Merges(Start, a) && once.parsed == [] && !once.tables.loaded;
    assert Merges(once, b);
    DescribedNonempty(a.file);
    DescribedNonempty(b.file);
    var s := NewSeg(Empty, dbg, a.file, 0);
    MergedSeg(Empty, dbg, a.file, s);
    assert SegSurvives(once.tables, RangeOf(b.file), s);
    assert Doubles(once, b);
    DoubledNow(once, b);
    assert [a, b][1..] == [b] && [b][1..] == [];
    assert Run(Start, [a, b]) == Run(once, [b]) == Stepped(once, b);
  }

  lemma DoubledNow(l: Loader, e: Load)
    requires Possible(e) && Doubles(l, e)
    ensures !OneCopy(Stepped(l, e).tables)
  {
    DoublesIs(l, e);
    MergedOneCopy(Unloaded(l.tables, RangeOf(e.file)), DbgPath(e.path), e.file);
  }

  lemma ProgramAndItsTwin(f: File)
    requires WellFormed(f) && Described(f)
    ensures var a := Load("FOO.PRG", 0x801, 1, f, true, false);
            var b := Load("FOO.BIN", 0x801, 1, f, true, false);
            Finds(a) && Finds(b) && !OneCopy(Run(Start, [a, b]).tables)
  {
    var a := Load("FOO.PRG", 0x801, 1, f, true, false);
    var b := Load("FOO.BIN", 0x801, 1, f, true, false);
    assert "FOO.PRG" == "FOO" + "." + "PRG" && "FOO.BIN" == "FOO" + "." + "BIN";
    ExtensionsShare("FOO", "PRG", "BIN");
    TwiceUnfinished(a, b);
  }

  // ---- After it ------------------------------------------------------------------------------

  /** A program is displaced by one that leaves its segment `k` alone, and comes back with a file
      that has such a segment but whose range leaves the old one alone too. */
  predicate LeftBeside(p: Load, q: Load, again: Load, k: nat) {
    Finds(p) && Finds(q) && Finds(again) && p.complete && q.complete
    && again.path == p.path && q.path != p.path
    && !NotOverlapping(RangeOf(q.file))(Parsed(p.path, RangeOf(p.file), p.file))
    && k < |p.file.segs| && k < |again.file.segs|
    && var s := NewSeg(Empty, DbgPath(p.path), p.file, k);
       SegStays(RangeOf(q.file))(s) && SegStays(RangeOf(again.file))(s)
  }

  /** The first program's segments are there, and it is the only one registered. */
  lemma FirstIn(p: Load, k: nat) returns (first: Loader, mine: Parsed, s: Seg)
    requires Finds(p) && p.complete && k < |p.file.segs|
    ensures first == Stepped(Start, p) && mine == Parsed(p.path, RangeOf(p.file), p.file)
    ensures s == NewSeg(Empty, DbgPath(p.path), p.file, k)
    ensures first.parsed == [mine] && first.tables.loaded && s in first.tables.segs
  {
    first, mine := Stepped(Start, p), Parsed(p.path, RangeOf(p.file), p.file);
    s := NewSeg(Empty, DbgPath(p.path), p.file, k);
    assert Merges(Start, p) && first.parsed == [] + [mine];
    MergedSeg(Empty, DbgPath(p.path), p.file, s);
  }

  /** A segment outside the newcomer's range stays, though its program is forgotten. */
  lemma Displaced(first: Loader, mine: Parsed, q: Load, s: Seg) returns (second: Loader)
    requires first.parsed == [mine] && first.tables.loaded && s in first.tables.segs
    requires Finds(q) && q.complete && q.path != mine.path
    requires !NotOverlapping(RangeOf(q.file))(mine) && SegStays(RangeOf(q.file))(s)
    ensures second == Stepped(first, q)
    ensures second.parsed == [Parsed(q.path, RangeOf(q.file), q.file)]
            && second.tables.loaded && s in second.tables.segs
  {
    second := Stepped(first, q);
    assert [mine][..0] == [];
    assert Filter(NotOverlapping(RangeOf(q.file)), [mine]) == [];
    UnloadedSeg(first.tables, RangeOf(q.file), s);
    MergedSeg(Unloaded(first.tables, RangeOf(q.file)), DbgPath(q.path), q.file, s);
  }

  lemma LeftBesideDoubles(p: Load, q: Load, again: Load, k: nat)
    requires LeftBeside(p, q, again, k)
    ensures !OneCopy(Run(Start, [p, q, again]).tables)
  {
    var first, mine, s := FirstIn(p, k);
    var second := Displaced(first, mine, q, s);
    assert Merges(second, again) && SegSurvives(second.tables, RangeOf(again.file), s);
    assert Doubles(second, again);
    DoubledNow(second, again);
    ThreeSteps(Start, p, q, again);
  }

  lemma ThreeSteps(l: Loader, a: Load, b: Load, c: Load)
    requires Possible(a) && Possible(b) && Possible(c)
    ensures Run(l, [a, b, c]) == Stepped(Stepped(Stepped(l, a), b), c)
  {
    assert [a, b, c][1..] == [b, c] && [b, c][1..] == [c] && [c][1..] == [];
    assert Run(Stepped(l, a), [b, c]) == Run(Stepped(Stepped(l, a), b), [c]);
  }

  /** Rebuilt: the second segment has moved down from $9000 to $8000, and the stale one stays. */
  lemma RebuiltLeavesStale()
    ensures var p := Load("P.PRG", 0x801, 0x100, File([FileSeg(0x801, 0x100), FileSeg(0x9000, 0x100)], []), true, true);
            var q := Load("Q.PRG", 0x801, 0x100, File([FileSeg(0x801, 0x100)], []), true, true);
            var again := p.(file := File([FileSeg(0x801, 0x100), FileSeg(0x8000, 0x100)], []));
            !OneCopy(Run(Start, [p, q, again]).tables)
  {
    var p := Load("P.PRG", 0x801, 0x100, File([FileSeg(0x801, 0x100), FileSeg(0x9000, 0x100)], []), true, true);
    var q := Load("Q.PRG", 0x801, 0x100, File([FileSeg(0x801, 0x100)], []), true, true);
    var again := p.(file := File([FileSeg(0x801, 0x100), FileSeg(0x8000, 0x100)], []));
    TwoSegments(p.file);
    TwoSegments(again.file);
    assert Scanned(q.file, 0) == Range(TOP, 0) && RangeOf(q.file) == Range(0x801, 0x900);
    LeftBesideDoubles(p, q, again, 1);
  }

  /** Unchanged: an empty segment below the range is never unloaded, so it comes back doubled. */
  lemma EmptySegmentDoubles()
    ensures var p := Load("P.PRG", 0x801, 0x100, File([FileSeg(0x801, 0x100), FileSeg(0, 0)], []), true, true);
            var q := Load("Q.PRG", 0x801, 0x100, File([FileSeg(0x801, 0x100)], []), true, true);
            !OneCopy(Run(Start, [p, q, p]).tables)
  {
    var p := Load("P.PRG", 0x801, 0x100, File([FileSeg(0x801, 0x100), FileSeg(0, 0)], []), true, true);
    var q := Load("Q.PRG", 0x801, 0x100, File([FileSeg(0x801, 0x100)], []), true, true);
    TwoSegments(p.file);
    assert Scanned(q.file, 0) == Range(TOP, 0) && RangeOf(q.file) == Range(0x801, 0x900);
    LeftBesideDoubles(p, q, p, 1);
  }

  lemma TwoSegments(f: File)
    requires |f.segs| == 2 && f.segs[0] == FileSeg(0x801, 0x100)
    ensures RangeOf(f) == if !Solid(f.segs[1]) then Range(0x801, 0x900)
                          else Range(if f.segs[1].start < 0x801 then f.segs[1].start else 0x801,
                                     if Last(f.segs[1]) > 0x900 then Last(f.segs[1]) else 0x900)
  {
    assert Scanned(f, 0) == Range(TOP, 0);
    assert Scanned(f, 1) == Range(0x801, 0x900);
  }

  // ---- Files that do not change ---------------------------------------------------------------

  /** No segment is empty or runs beyond the top of memory, and spans start inside theirs. */
  predicate Fitting(f: File) {
    (forall k :: 0 <= k < |f.segs| ==> f.segs[k].size > 0 && f.segs[k].start + f.segs[k].size - 1 <= TOP)
    && forall j :: 0 <= j < |f.spans| ==> Inside(f, j)
  }

  /** What is read is the beginning of the file: part of it while it is being written, or all of it. */
  predicate PartOf(e: Load, f: File) {
    e.file.segs <= f.segs && e.file.spans <= f.spans
  }

  /** Every record is its file's, and no span is without its segment. */
  ghost predicate Matches(t: Tables, files: Path -> File) {
    (forall s :: s in t.segs ==> s.k < |files(s.dbg).segs| && files(s.dbg).segs[s.k] == Declared(s))
    && forall p :: p in t.spans ==>
         p.seg in t.segs && p.j < |files(p.seg.dbg).spans|
         && files(p.seg.dbg).spans[p.j] == FileSpan(p.seg.k, p.offset)
  }

  ghost predicate AllFitting(files: Path -> File) {
    forall dbg :: Fitting(files(dbg))
  }

  lemma UnloadMatches(t: Tables, files: Path -> File, r: Range)
    requires Matches(t, files) && AllFitting(files)
    ensures Matches(Unloaded(t, r), files)
  {
    var u := Unloaded(t, r);
    forall s | s in u.segs
      ensures s in t.segs
    {
      UnloadedSeg(t, r, s);
    }
    forall p | p in u.spans
      ensures p in t.spans && p.seg in u.segs
    {
      UnloadedSpan(t, r, p);
      assert Inside(files(p.seg.dbg), p.j);
      UnloadOrphansNone(t, r, p);
    }
  }

  lemma {:induction false} UnloadedEachMatches(t: Tables, files: Path -> File, ps: seq<Parsed>)
    requires Matches(t, files) && AllFitting(files)
    ensures Matches(UnloadedEach(t, ps), files) && UnloadedEach(t, ps).loaded == t.loaded
    decreases |ps|
  {
    if ps != [] {
      UnloadedEachMatches(t, files, ps[..|ps|-1]);
      UnloadMatches(UnloadedEach(t, ps[..|ps|-1]), files, ps[|ps|-1].range);
    }
  }

  lemma MergeMatches(t: Tables, files: Path -> File, e: Load)
    requires Matches(t, files) && Possible(e) && PartOf(e, files(DbgPath(e.path)))
    ensures Matches(Merged(t, DbgPath(e.path), e.file), files)
  {
    var dbg, m := DbgPath(e.path), Merged(t, DbgPath(e.path), e.file);
    forall s | s in m.segs
      ensures s.k < |files(s.dbg).segs| && files(s.dbg).segs[s.k] == Declared(s)
    {
      MergedSeg(t, dbg, e.file, s);
    }
    forall p | p in m.spans
      ensures p.seg in m.segs && p.j < |files(p.seg.dbg).spans|
              && files(p.seg.dbg).spans[p.j] == FileSpan(p.seg.k, p.offset)
    {
      MergedSpan(t, dbg, e.file, p);
      MergedSeg(t, dbg, e.file, p.seg);
    }
  }

  lemma StepMatches(l: Loader, files: Path -> File, e: Load)
    requires Matches(l.tables, files) && AllFitting(files) && l.tables.loaded
    requires Possible(e) && PartOf(e, files(DbgPath(e.path)))
    ensures Matches(Stepped(l, e).tables, files) && Stepped(l, e).tables.loaded
  {
    if Merges(l, e) {
      UnloadMatches(l.tables, files, RangeOf(e.file));
      if e.readable {
        MergeMatches(Unloaded(l.tables, RangeOf(e.file)), files, e);
      }
    } else if e.size > 0 {
      UnloadedEachMatches(l.tables, files, Filter(Covered(e.addr, EndOf(e.addr, e.size)), l.parsed));
    }
  }

  lemma UnchangedNeverDoubles(l: Loader, files: Path -> File, e: Load)
    requires Matches(l.tables, files) && AllFitting(files) && l.tables.loaded
    requires Possible(e) && PartOf(e, files(DbgPath(e.path)))
    ensures !Doubles(l, e)
  {
    var f, r := files(DbgPath(e.path)), RangeOf(e.file);
    ScannedBounds(e.file, |e.file.segs|);
    forall s | s in l.tables.segs && s.dbg == DbgPath(e.path) && s.k < |e.file.segs|
      ensures !SegStays(r)(s)
    {
      assert f.segs[s.k] == Declared(s) == e.file.segs[s.k];
    }
    forall p | p in l.tables.spans && p.seg.dbg == DbgPath(e.path) && p.j < |e.file.spans|
      ensures !SpanStays(l.tables.segs, r)(p)
    {
      assert f.spans[p.j] == FileSpan(p.seg.k, p.offset) == e.file.spans[p.j];
      assert f.segs[p.seg.k] == Declared(p.seg) == e.file.segs[p.seg.k];
      assert Inside(f, p.j);
    }
  }

  /** Once a load has succeeded, files that do not change, and whose segments fit, are never
      doubled, however much of them had been written at each load. */
  lemma {:induction false} UnchangedFilesSafe(l: Loader, es: seq<Load>, files: Path -> File)
    requires Matches(l.tables, files) && AllFitting(files) && l.tables.loaded && AllPossible(es)
    requires forall i :: 0 <= i < |es| ==> PartOf(es[i], files(DbgPath(es[i].path)))
    ensures !SomeDoubles(l, es)
    decreases |es|
  {
    if es != [] {
      UnchangedNeverDoubles(l, files, es[0]);
      StepMatches(l, files, es[0]);
      UnchangedFilesSafe(Stepped(l, es[0]), es[1..], files);
    }
  }
}
