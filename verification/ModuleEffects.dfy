/**
 What one load does to the registry and the tables, told record by record: which modules it
 forgets, which records go, which come, and when nothing changes at all.
 */
module ModuleEffects {
  import opened Compaction
  import opened ModuleTables
  import opened ModuleLemmas
  import opened ModuleRegistry

  // ---- Where records lie --------------------------------------------------------------------

  /** The segment lies wholly in the range; an empty one lies at its start. */
  predicate LiesIn(s: Seg, r: Range) {
    r.start <= s.start && (if s.size == 0 then s.start else s.start + s.size - 1) <= r.end
  }

  /** The span starts in the range and in memory. */
  predicate StartsIn(p: Span, r: Range) {
    r.start <= p.seg.start + p.offset <= r.end && p.seg.start + p.offset <= 0xFFFFFF
  }

  predicate Overlap(x: Range, y: Range) {
    x.start <= y.end && y.start <= x.end
  }

  // ---- Unloading one range after another ------------------------------------------------------

  /** The segment lies in one of the first `n` ranges. */
  predicate LiesInSome(s: Seg, ps: seq<Parsed>, n: nat)
    requires n <= |ps|
  {
    exists i :: 0 <= i < n && LiesIn(s, ps[i].range)
  }

  /** The span starts in one of the ranges, its segment being there and in none of those before. */
  ghost predicate Dropped(t: Tables, p: Span, ps: seq<Parsed>) {
    p.seg in t.segs && exists i :: 0 <= i < |ps| && StartsIn(p, ps[i].range) && !LiesInSome(p.seg, ps, i)
  }

  lemma {:induction false} EachSeg(t: Tables, ps: seq<Parsed>, s: Seg)
    requires t.loaded
    ensures UnloadedEach(t, ps).loaded
    ensures s in UnloadedEach(t, ps).segs <==> s in t.segs && !LiesInSome(s, ps, |ps|)
    decreases |ps|
  {
    if ps != [] {
      var front, last := ps[..|ps|-1], ps[|ps|-1];
      EachSeg(t, front, s);
      UnloadedSeg(UnloadedEach(t, front), last.range, s);
      assert LiesInSome(s, ps, |ps|) <==> LiesInSome(s, front, |front|) || LiesIn(s, last.range) by {
        assert forall i :: 0 <= i < |front| ==> front[i] == ps[i];
      }
    }
  }

  lemma DroppedMore(t: Tables, p: Span, ps: seq<Parsed>)
    requires ps != []
    ensures var front, last := ps[..|ps|-1], ps[|ps|-1];
            Dropped(t, p, ps) <==> Dropped(t, p, front)
                                   || (p.seg in t.segs && StartsIn(p, last.range) && !LiesInSome(p.seg, front, |front|))
  {
    var front := ps[..|ps|-1];
    forall i: nat | i <= |front|
      ensures LiesInSome(p.seg, ps, i) <==> LiesInSome(p.seg, front, i)
    {
      assert forall j :: 0 <= j < i ==> front[j] == ps[j];
    }
    assert forall i :: 0 <= i < |front| ==> front[i] == ps[i];
  }

  lemma {:induction false} EachSpan(t: Tables, ps: seq<Parsed>, p: Span)
    requires t.loaded
    ensures p in UnloadedEach(t, ps).spans <==> p in t.spans && !Dropped(t, p, ps)
    decreases |ps|
  {
    if ps != [] {
      var front, last := ps[..|ps|-1], ps[|ps|-1];
      EachSpan(t, front, p);
      EachSeg(t, front, p.seg);
      UnloadedSpan(UnloadedEach(t, front), last.range, p);
      DroppedMore(t, p, ps);
    }
  }

  // ---- A load nothing describes ---------------------------------------------------------------

  /** There is no .dbg to read for it: it is one itself, or its name does not fit, or nothing is described. */
  predicate Undescribed(l: Loader, e: Load) {
    IsDbg(e.path) || (!Registered(l, e.path) && (!Nameable(e.path) || !Described(e.file)))
  }

  /** The last address it overwrote, in the sixteen bits a transfer has. */
  function LastOf(e: Load): nat
    requires e.size > 0
  {
    if e.addr + e.size - 1 > 0xFFFF then 0xFFFF else e.addr + e.size - 1
  }

  /** The entry is about modules outside what was overwritten, at least in part. */
  function Spared(e: Load): Parsed -> bool
    requires e.size > 0
  {
    (q: Parsed) => q.range.start < e.addr || q.range.end > LastOf(e)
  }

  function Overwritten(e: Load): Parsed -> bool
    requires e.size > 0
  {
    (q: Parsed) => e.addr <= q.range.start && q.range.end <= LastOf(e)
  }

  lemma {:induction false} FilterSame<T>(p: T -> bool, q: T -> bool, s: seq<T>)
    requires forall x :: x in s ==> p(x) == q(x)
    ensures Filter(p, s) == Filter(q, s)
  {
    if s != [] {
      assert s == s[..|s|-1] + [s[|s|-1]];
      FilterSame(p, q, s[..|s|-1]);
    }
  }

  /**
   A load that nothing describes forgets exactly the modules it wholly overwrote, the others staying
   in order, and drops exactly the records that lie in the ranges of those.
   */
  lemma UndescribedDrops(l: Loader, e: Load) returns (gone: seq<Parsed>)
    requires Sound(l) && Possible(e) && Undescribed(l, e) && e.size > 0
    ensures Sifted(Stepped(l, e).parsed, l.parsed, Spared(e))
    ensures Sifted(gone, l.parsed, Overwritten(e))
    ensures forall s :: s in Stepped(l, e).tables.segs <==> s in l.tables.segs && !LiesInSome(s, gone, |gone|)
    ensures forall p :: p in Stepped(l, e).tables.spans <==> p in l.tables.spans && !Dropped(l.tables, p, gone)
    ensures Stepped(l, e).tables.next == l.tables.next && Stepped(l, e).tables.loaded == l.tables.loaded
  {
    var end := EndOf(e.addr, e.size);
    gone := Filter(Overwritten(e), l.parsed);
    FilterSame(Covered(e.addr, end), Overwritten(e), l.parsed);
    FilterSame(NotCovered(e.addr, end), Spared(e), l.parsed);
    FilterSifts(Overwritten(e), l.parsed);
    FilterSifts(Spared(e), l.parsed);
    EachKeeps(l.tables, gone);
    if l.tables.loaded {
      forall s
        ensures s in UnloadedEach(l.tables, gone).segs <==> s in l.tables.segs && !LiesInSome(s, gone, |gone|)
      {
        EachSeg(l.tables, gone, s);
      }
      forall p
        ensures p in UnloadedEach(l.tables, gone).spans <==> p in l.tables.spans && !Dropped(l.tables, p, gone)
      {
        EachSpan(l.tables, gone, p);
      }
    } else {
      assert gone == [];
    }
  }

  lemma {:induction false} EachKeeps(t: Tables, ps: seq<Parsed>)
    ensures UnloadedEach(t, ps).next == t.next && UnloadedEach(t, ps).loaded == t.loaded
    decreases |ps|
  {
    if ps != [] {
      EachKeeps(t, ps[..|ps|-1]);
    }
  }

  /** A span inside its segment goes exactly when it starts in the range of a module that was overwritten. */
  lemma InsideDropped(t: Tables, p: Span, ps: seq<Parsed>)
    requires p.offset < p.seg.size && p.seg.start + p.seg.size <= 0x1000000 && p.seg in t.segs
    ensures Dropped(t, p, ps) <==> exists i :: 0 <= i < |ps| && StartsIn(p, ps[i].range)
  {
    if i :| 0 <= i < |ps| && StartsIn(p, ps[i].range) {
      FirstStart(p, ps, i);
    }
  }

  lemma {:induction false} FirstStart(p: Span, ps: seq<Parsed>, i: nat)
    requires p.offset < p.seg.size && p.seg.start + p.seg.size <= 0x1000000
    requires i < |ps| && StartsIn(p, ps[i].range)
    ensures exists j :: 0 <= j < |ps| && StartsIn(p, ps[j].range) && !LiesInSome(p.seg, ps, j)
  {
    if j :| 0 <= j < i && LiesIn(p.seg, ps[j].range) {
      FirstStart(p, ps, j);
    } else {
      assert !LiesInSome(p.seg, ps, i);
    }
  }

  /** A load of no bytes that nothing describes, and one of a program that is registered, change nothing. */
  lemma NothingToDo(l: Loader, e: Load)
    requires Possible(e)
    requires (Undescribed(l, e) && e.size == 0) || (!IsDbg(e.path) && Registered(l, e.path))
    ensures Stepped(l, e) == l
  {
  }

  // ---- A load with a .dbg beside it -------------------------------------------------------------

  predicate Read(l: Loader, e: Load) {
    !IsDbg(e.path) && !Registered(l, e.path) && Nameable(e.path) && Described(e.file)
  }

  function ApartFrom(e: Load): Parsed -> bool {
    (q: Parsed) => !Overlap(q.range, RangeOf(e.file))
  }

  /** Record number `k` of the file, under the next numbers never handed out. */
  predicate NowRead(l: Loader, e: Load, s: Seg) {
    e.readable && s.k < |e.file.segs|
    && s == Seg(l.tables.next + s.k, DbgPath(e.path), s.k, e.file.segs[s.k].start, e.file.segs[s.k].size)
  }

  lemma SegReplaced(l: Loader, e: Load, s: Seg)
    requires Possible(e) && Read(l, e)
    ensures s in Stepped(l, e).tables.segs <==>
              (s in l.tables.segs && !(l.tables.loaded && LiesIn(s, RangeOf(e.file)))) || NowRead(l, e, s)
  {
    var cleared := Unloaded(l.tables, RangeOf(e.file));
    UnloadedSeg(l.tables, RangeOf(e.file), s);
    if e.readable {
      MergedSeg(cleared, DbgPath(e.path), e.file, s);
      assert NowRead(l, e, s) ==> s == NewSeg(cleared, DbgPath(e.path), e.file, s.k);
    }
  }

  lemma SpanReplaced(l: Loader, e: Load, p: Span)
    requires Possible(e) && Read(l, e)
    ensures p in Stepped(l, e).tables.spans <==>
              (p in l.tables.spans
               && !(l.tables.loaded && p.seg in l.tables.segs && StartsIn(p, RangeOf(e.file))))
              || (NowRead(l, e, p.seg) && p.j < |e.file.spans| && e.file.spans[p.j] == FileSpan(p.seg.k, p.offset))
  {
    var cleared := Unloaded(l.tables, RangeOf(e.file));
    UnloadedSpan(l.tables, RangeOf(e.file), p);
    if e.readable {
      MergedSpan(cleared, DbgPath(e.path), e.file, p);
      assert NowRead(l, e, p.seg) ==> p.seg == NewSeg(cleared, DbgPath(e.path), e.file, p.seg.k);
      if NowRead(l, e, p.seg) && p.j < |e.file.spans| && e.file.spans[p.j] == FileSpan(p.seg.k, p.offset) {
        assert p == NewSpan(cleared, DbgPath(e.path), e.file, p.j);
      }
    }
  }

  /**
   A described load forgets exactly the modules its file overlaps; records that lie in the file's
   range go and the file's records come; and if the reading was accepted the program is registered last.
   */
  lemma DescribedReplaces(l: Loader, e: Load) returns (rest: seq<Parsed>)
    requires Possible(e) && Read(l, e)
    ensures Sifted(rest, l.parsed, ApartFrom(e))
    ensures Stepped(l, e).parsed == if e.complete then rest + [Parsed(e.path, RangeOf(e.file), e.file)] else rest
    ensures forall s :: s in Stepped(l, e).tables.segs <==>
              (s in l.tables.segs && !(l.tables.loaded && LiesIn(s, RangeOf(e.file)))) || NowRead(l, e, s)
    ensures forall p :: p in Stepped(l, e).tables.spans <==>
              (p in l.tables.spans
               && !(l.tables.loaded && p.seg in l.tables.segs && StartsIn(p, RangeOf(e.file))))
              || (NowRead(l, e, p.seg) && p.j < |e.file.spans| && e.file.spans[p.j] == FileSpan(p.seg.k, p.offset))
    ensures Stepped(l, e).tables.loaded == (l.tables.loaded || e.complete)
    ensures Stepped(l, e).tables.next == l.tables.next + if e.readable then |e.file.segs| else 0
  {
    rest := Filter(NotOverlapping(RangeOf(e.file)), l.parsed);
    FilterSame(NotOverlapping(RangeOf(e.file)), ApartFrom(e), l.parsed);
    FilterSifts(ApartFrom(e), l.parsed);
    forall s
      ensures s in Stepped(l, e).tables.segs <==>
                (s in l.tables.segs && !(l.tables.loaded && LiesIn(s, RangeOf(e.file)))) || NowRead(l, e, s)
    {
      SegReplaced(l, e, s);
    }
    forall p
      ensures p in Stepped(l, e).tables.spans <==>
                (p in l.tables.spans
                 && !(l.tables.loaded && p.seg in l.tables.segs && StartsIn(p, RangeOf(e.file))))
                || (NowRead(l, e, p.seg) && p.j < |e.file.spans| && e.file.spans[p.j] == FileSpan(p.seg.k, p.offset))
    {
      SpanReplaced(l, e, p);
    }
  }

  // ---- Names --------------------------------------------------------------------------------------

  predicate Letter(c: char, lower: char) {
    c == lower || c as int == lower as int - 32
  }

  /** A .dbg by name, in any case; the name built for a program always is. */
  lemma DbgNames(path: Path)
    ensures IsDbg(DbgPath(path))
    ensures IsDbg(path) <==> |path| >= 4 && path[|path|-4] == '.' && Letter(path[|path|-3], 'd')
                             && Letter(path[|path|-2], 'b') && Letter(path[|path|-1], 'g')
  {
  }

  /** A name with no dot gets the extension appended; a dot in a directory is none of its. */
  lemma ExtensionAppended(dir: string, name: string)
    requires Plain(name) && (dir == "" || dir[|dir|-1] == '/' || dir[|dir|-1] == '\\')
    ensures DbgPath(dir + name) == dir + name + ".dbg"
  {
    NoDot(dir, name, |dir| + |name|);
    assert (dir + name)[..|dir + name|] == dir + name;
  }

  lemma {:induction false} NoDot(dir: string, name: string, n: nat)
    requires Plain(name) && (dir == "" || dir[|dir|-1] == '/' || dir[|dir|-1] == '\\')
    requires |dir| <= n <= |dir| + |name|
    ensures LastDot(dir + name, n) < 0
    decreases n
  {
    if n > |dir| {
      assert (dir + name)[n-1] == name[n-1-|dir|];
      NoDot(dir, name, n - 1);
    }
  }

  /** A name is built exactly when it and its path fit the buffer of 1024 bytes, terminated. */
  lemma NamesFit(path: Path)
    ensures Nameable(path) <==> |path| < 1024 && |DbgPath(path)| < 1024
  {
  }
}
