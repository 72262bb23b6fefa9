/**
 What unloading a range and merging a file keep, clear and add, whatever the files declare.
 */
module ModuleLemmas {
  import opened Compaction
  import opened ModuleTables

  // ---- The scan --------------------------------------------------------------------------

  lemma {:induction false} ScannedBounds(f: File, n: nat)
    requires n <= |f.segs|
    ensures var r := Scanned(f, n);
            r.start <= TOP && r.end <= TOP
            && forall k :: 0 <= k < n && Solid(f.segs[k]) ==> r.start <= f.segs[k].start && Last(f.segs[k]) <= r.end
  {
    if n > 0 {
      ScannedBounds(f, n - 1);
    }
  }

  lemma {:induction false} ScannedAttained(f: File, n: nat)
    requires n <= |f.segs| && exists k :: 0 <= k < n && Solid(f.segs[k])
    ensures exists k :: 0 <= k < n && Solid(f.segs[k]) && f.segs[k].start == Scanned(f, n).start
    ensures exists k :: 0 <= k < n && Solid(f.segs[k]) && Last(f.segs[k]) == Scanned(f, n).end
  {
    if exists k :: 0 <= k < n - 1 && Solid(f.segs[k]) {
      ScannedAttained(f, n - 1);
    } else {
      ScannedNone(f, n - 1);
    }
    assert Solid(f.segs[n-1]) || !Solid(f.segs[n-1]);
  }

  lemma {:induction false} ScannedNone(f: File, n: nat)
    requires n <= |f.segs| && forall k :: 0 <= k < n ==> !Solid(f.segs[k])
    ensures Scanned(f, n) == Range(TOP, 0)
  {
    if n > 0 {
      ScannedNone(f, n - 1);
    }
  }

  /** A file is described exactly when some segment counts; its range is then the least that
      holds every one that does. */
  lemma RangeIsLeast(f: File, r: Range)
    ensures Described(f) <==> exists k :: 0 <= k < |f.segs| && Solid(f.segs[k])
    ensures Described(f) ==>
              ((forall k :: 0 <= k < |f.segs| && Solid(f.segs[k]) ==>
                  r.start <= f.segs[k].start && Last(f.segs[k]) <= r.end)
               <==> r.start <= RangeOf(f).start && RangeOf(f).end <= r.end)
  {
    ScannedBounds(f, |f.segs|);
    if exists k :: 0 <= k < |f.segs| && Solid(f.segs[k]) {
      ScannedAttained(f, |f.segs|);
    } else {
      ScannedNone(f, |f.segs|);
    }
  }

  /** The address is a byte of the segment, in the 24 bits there are. */
  predicate ByteOf(s: FileSeg, a: int) {
    s.start <= a < s.start + s.size && a <= 0xFFFFFF
  }

  predicate HasByte(f: File, a: int) {
    exists k :: 0 <= k < |f.segs| && ByteOf(f.segs[k], a)
  }

  lemma BytesSolid(s: FileSeg, a: int)
    ensures ByteOf(s, a) ==> Solid(s) && s.start <= a <= Last(s)
    ensures Solid(s) ==> ByteOf(s, s.start) && ByteOf(s, Last(s))
  {
  }

  ghost predicate HoldsBytes(r: Range, f: File) {
    forall a: int :: HasByte(f, a) ==> r.start <= a <= r.end
  }

  predicate HoldsSegs(r: Range, f: File) {
    forall k :: 0 <= k < |f.segs| && Solid(f.segs[k]) ==> r.start <= f.segs[k].start && Last(f.segs[k]) <= r.end
  }

  lemma SolidHasBytes(f: File, k: nat)
    requires k < |f.segs| && Solid(f.segs[k])
    ensures HasByte(f, f.segs[k].start) && HasByte(f, Last(f.segs[k]))
  {
    BytesSolid(f.segs[k], 0);
  }

  lemma BytesHeld(r: Range, f: File)
    ensures HoldsBytes(r, f) <==> HoldsSegs(r, f)
  {
    if HoldsBytes(r, f) {
      forall k: nat | k < |f.segs| && Solid(f.segs[k])
        ensures r.start <= f.segs[k].start && Last(f.segs[k]) <= r.end
      {
        SolidHasBytes(f, k);
      }
    }
    if HoldsSegs(r, f) {
      forall a: int | HasByte(f, a)
        ensures r.start <= a <= r.end
      {
        var k :| 0 <= k < |f.segs| && ByteOf(f.segs[k], a);
        BytesSolid(f.segs[k], a);
      }
    }
  }

  /** A file has a range exactly when some segment has a byte in memory. */
  lemma DescribedHasByte(f: File)
    ensures Described(f) <==> exists a: int :: HasByte(f, a)
  {
    RangeIsLeast(f, Range(0, 0));
    if k: nat :| k < |f.segs| && Solid(f.segs[k]) {
      SolidHasBytes(f, k);
    }
    if a: int :| HasByte(f, a) {
      var k :| 0 <= k < |f.segs| && ByteOf(f.segs[k], a);
      BytesSolid(f.segs[k], a);
    }
  }

  /** The range is then the least that holds every byte its segments have in memory. */
  lemma RangeHoldsBytes(f: File, r: Range)
    requires Described(f)
    ensures (forall a: int :: HasByte(f, a) ==> r.start <= a <= r.end)
            <==> r.start <= RangeOf(f).start && RangeOf(f).end <= r.end
  {
    BytesHeld(r, f);
    RangeIsLeast(f, r);
    assert HoldsBytes(r, f) <==> forall a: int :: HasByte(f, a) ==> r.start <= a <= r.end;
  }

  // ---- Two programs, one .dbg ---------------------------------------------------------------

  predicate Plain(s: string) {
    forall i :: 0 <= i < |s| ==> s[i] != '.' && s[i] != '/' && s[i] != '\\'
  }

  lemma {:induction false} LastDotAt(stem: string, ext: string, n: nat)
    requires Plain(ext) && |stem| < n <= |stem| + 1 + |ext|
    ensures LastDot(stem + "." + ext, n) == |stem|
    decreases n
  {
    var path := stem + "." + ext;
    if n > |stem| + 1 {
      assert path[n-1] == ext[n-1-|stem|-1];
      LastDotAt(stem, ext, n - 1);
    }
  }

  /** Programs that differ only in their extension are described by the same file. */
  lemma ExtensionsShare(stem: string, a: string, b: string)
    requires Plain(a) && Plain(b)
    ensures DbgPath(stem + "." + a) == DbgPath(stem + "." + b) == stem + ".dbg"
  {
    LastDotAt(stem, a, |stem| + 1 + |a|);
    LastDotAt(stem, b, |stem| + 1 + |b|);
    assert (stem + "." + a)[..|stem|] == stem == (stem + "." + b)[..|stem|];
  }

  // ---- Unloading -------------------------------------------------------------------------

  lemma UnloadedSeg(t: Tables, r: Range, s: Seg)
    ensures s in Unloaded(t, r).segs <==> s in t.segs && (t.loaded ==> SegStays(r)(s))
  {
    FilterIn(SegStays(r), t.segs, s);
  }

  lemma UnloadedSpan(t: Tables, r: Range, p: Span)
    ensures p in Unloaded(t, r).spans <==> p in t.spans && (t.loaded ==> SpanStays(t.segs, r)(p))
  {
    FilterIn(SpanStays(t.segs, r), t.spans, p);
  }

  /** A span that starts inside its segment is not orphaned: the segment only goes with it. */
  lemma UnloadOrphansNone(t: Tables, r: Range, p: Span)
    requires p in Unloaded(t, r).spans && p.seg in t.segs
    requires p.offset < p.seg.size && p.seg.start + p.offset <= TOP
    ensures p.seg in Unloaded(t, r).segs
  {
    UnloadedSpan(t, r, p);
    UnloadedSeg(t, r, p.seg);
  }

  lemma UnloadNumbered(t: Tables, r: Range)
    requires Numbered(t)
    ensures Numbered(Unloaded(t, r))
  {
    var u := Unloaded(t, r);
    forall s | s in u.segs
      ensures s in t.segs
    {
      UnloadedSeg(t, r, s);
    }
    forall p | p in u.spans
      ensures p in t.spans
    {
      UnloadedSpan(t, r, p);
    }
    FilterUnique(SegStays(r), SegId(), t.segs);
    FilterUnique(SpanStays(t.segs, r), SpanId(), t.spans);
  }

  lemma UnloadOneCopy(t: Tables, r: Range)
    requires OneCopy(t)
    ensures OneCopy(Unloaded(t, r))
  {
    FilterUnique(SegStays(r), SegKey(), t.segs);
    FilterUnique(SpanStays(t.segs, r), SpanKey(), t.spans);
  }

  lemma UnloadOrigins(t: Tables, r: Range)
    ensures Origins(Unloaded(t, r)) <= Origins(t)
  {
    var u := Unloaded(t, r);
    forall o | o in Origins(u)
      ensures o in Origins(t)
    {
      if s :| s in u.segs && (s.dbg, Reading(s)) == o {
        UnloadedSeg(t, r, s);
      } else {
        var p :| p in u.spans && (p.seg.dbg, Reading(p.seg)) == o;
        UnloadedSpan(t, r, p);
      }
    }
  }

  predicate Apart(a: Range, b: Range) {
    a.end < b.start || b.end < a.start
  }

  /** A module that is wholly there, and whose range is apart, stays wholly there. */
  lemma UnloadKeeps(t: Tables, dbg: Path, f: File, r: Range)
    requires Present(t, dbg, f) && Apart(RangeOf(f), r)
    ensures Present(Unloaded(t, r), dbg, f)
  {
    var u := Unloaded(t, r);
    ScannedBounds(f, |f.segs|);
    forall k | 0 <= k < |f.segs| && Solid(f.segs[k])
      ensures SegThere(u, dbg, f, k)
    {
      assert SegThere(t, dbg, f, k);
      var s :| s in t.segs && s.dbg == dbg && s.k == k && Declared(s) == f.segs[k];
      UnloadedSeg(t, r, s);
      assert s in u.segs;
    }
    forall j | 0 <= j < |f.spans| && Inside(f, j)
      ensures SpanThere(u, dbg, f, j)
    {
      SpanKept(t, dbg, f, r, j);
    }
  }

  lemma SpanKept(t: Tables, dbg: Path, f: File, r: Range, j: nat)
    requires j < |f.spans| && Inside(f, j) && SpanThere(t, dbg, f, j) && Apart(RangeOf(f), r)
    ensures SpanThere(Unloaded(t, r), dbg, f, j)
  {
    ScannedBounds(f, |f.segs|);
    var fs := f.segs[f.spans[j].seg];
    var p :| p in t.spans && p.seg in t.segs && p.seg.dbg == dbg && p.j == j
             && FileSpan(p.seg.k, p.offset) == f.spans[j] && Declared(p.seg) == fs;
    assert RangeOf(f).start <= fs.start && Last(fs) <= RangeOf(f).end;
    UnloadedSpan(t, r, p);
    UnloadedSeg(t, r, p.seg);
    assert p in Unloaded(t, r).spans && p.seg in Unloaded(t, r).segs;
  }

  // ---- Merging -----------------------------------------------------------------------------

  lemma MergedSeg(t: Tables, dbg: Path, f: File, s: Seg)
    requires WellFormed(f)
    ensures s in Merged(t, dbg, f).segs <==> s in t.segs || exists k :: 0 <= k < |f.segs| && s == NewSeg(t, dbg, f, k)
  {
    var segs := NewSegs(t, dbg, f, |f.segs|);
    forall k | 0 <= k < |f.segs|
      ensures NewSeg(t, dbg, f, k) in segs
    {
      assert segs[k] == NewSeg(t, dbg, f, k);
    }
  }

  lemma MergedSpan(t: Tables, dbg: Path, f: File, p: Span)
    requires WellFormed(f)
    ensures p in Merged(t, dbg, f).spans
            <==> p in t.spans || exists j :: 0 <= j < |f.spans| && p == NewSpan(t, dbg, f, j)
  {
    var spans := NewSpans(t, dbg, f, |f.spans|);
    forall j | 0 <= j < |f.spans|
      ensures NewSpan(t, dbg, f, j) in spans
    {
      assert spans[j] == NewSpan(t, dbg, f, j);
    }
  }

  lemma UniqueJoin<T, K>(key: T -> K, a: seq<T>, b: seq<T>)
    requires UniqueBy(key, b)
    ensures UniqueBy(key, a + b) <==> UniqueBy(key, a) && forall x, y :: x in a && y in b ==> key(x) != key(y)
  {
    var c := a + b;
    if UniqueBy(key, c) {
      forall i, j | 0 <= i < j < |a|
        ensures key(a[i]) != key(a[j])
      {
        assert c[i] == a[i] && c[j] == a[j];
      }
      forall x, y | x in a && y in b
        ensures key(x) != key(y)
      {
        var i :| 0 <= i < |a| && a[i] == x;
        var j :| 0 <= j < |b| && b[j] == y;
        assert c[i] == x && c[|a| + j] == y;
      }
    }
  }

  /** Every new record has an ID of its own and belongs to a reading of its own. */
  lemma MergedNumbered(t: Tables, dbg: Path, f: File)
    requires Numbered(t) && WellFormed(f)
    ensures Numbered(Merged(t, dbg, f))
  {
    var m := Merged(t, dbg, f);
    forall s | s in m.segs
      ensures s.k <= s.id < m.next
    {
      MergedSeg(t, dbg, f, s);
    }
    forall p | p in m.spans
      ensures p.seg.k <= p.seg.id < m.next
    {
      MergedSpan(t, dbg, f, p);
    }
    UniqueJoin(SegId(), t.segs, NewSegs(t, dbg, f, |f.segs|));
    forall x, y | x in t.spans && y in NewSpans(t, dbg, f, |f.spans|)
      ensures SpanId()(x) != SpanId()(y)
    {
      assert Reading(y.seg) == t.next > x.seg.id;
    }
    UniqueJoin(SpanId(), t.spans, NewSpans(t, dbg, f, |f.spans|));
  }

  /** What is wholly there stays so. */
  lemma MergedKeeps(t: Tables, dbg: Path, f: File, other: Path, g: File)
    requires WellFormed(f) && Present(t, other, g)
    ensures Present(Merged(t, dbg, f), other, g)
  {
    var m := Merged(t, dbg, f);
    forall k | 0 <= k < |g.segs| && Solid(g.segs[k])
      ensures SegThere(m, other, g, k)
    {
      assert SegThere(t, other, g, k);
      var s :| s in t.segs && s.dbg == other && s.k == k && Declared(s) == g.segs[k];
      assert s in m.segs;
    }
    forall j | 0 <= j < |g.spans| && Inside(g, j)
      ensures SpanThere(m, other, g, j)
    {
      assert SpanThere(t, other, g, j);
      var p :| p in t.spans && p.seg in t.segs && p.seg.dbg == other && p.j == j
               && FileSpan(p.seg.k, p.offset) == g.spans[j] && Declared(p.seg) == g.segs[g.spans[j].seg];
      assert p in m.spans && p.seg in m.segs;
    }
  }

  /** Reading a file makes all of it present. */
  lemma MergedPresent(t: Tables, dbg: Path, f: File)
    requires WellFormed(f)
    ensures Present(Merged(t, dbg, f), dbg, f)
  {
    var m := Merged(t, dbg, f);
    forall k | 0 <= k < |f.segs|
      ensures SegThere(m, dbg, f, k)
    {
      var s := NewSeg(t, dbg, f, k);
      MergedSeg(t, dbg, f, s);
      assert s in m.segs && Declared(s) == f.segs[k];
    }
    forall j | 0 <= j < |f.spans|
      ensures SpanThere(m, dbg, f, j)
    {
      var p := NewSpan(t, dbg, f, j);
      MergedSpan(t, dbg, f, p);
      MergedSeg(t, dbg, f, p.seg);
      assert p in m.spans && p.seg in m.segs && FileSpan(p.seg.k, p.offset) == f.spans[j];
    }
  }

  // ---- Copies and readings -----------------------------------------------------------------

  /** Merging makes a second copy of something exactly when a record of the same number was
      there already. */
  lemma MergedOneCopy(t: Tables, dbg: Path, f: File)
    requires WellFormed(f)
    ensures OneCopy(Merged(t, dbg, f)) <==> OneCopy(t) && !SomePresent(t, dbg, f)
  {
    UniqueJoin(SegKey(), t.segs, NewSegs(t, dbg, f, |f.segs|));
    UniqueJoin(SpanKey(), t.spans, NewSpans(t, dbg, f, |f.spans|));
    SegsMet(t, dbg, f);
    SpansMet(t, dbg, f);
  }

  lemma SegsMet(t: Tables, dbg: Path, f: File)
    ensures (forall x, y :: x in t.segs && y in NewSegs(t, dbg, f, |f.segs|) ==> SegKey()(x) != SegKey()(y))
            <==> forall k :: 0 <= k < |f.segs| ==> !HasSeg(t, dbg, k)
  {
    var segs := NewSegs(t, dbg, f, |f.segs|);
    if k :| 0 <= k < |f.segs| && HasSeg(t, dbg, k) {
      var s :| s in t.segs && s.dbg == dbg && s.k == k;
      assert segs[k] in segs && SegKey()(s) == SegKey()(segs[k]);
    } else {
      forall x, y | x in t.segs && y in segs
        ensures SegKey()(x) != SegKey()(y)
      {
        var i :| 0 <= i < |segs| && segs[i] == y;
        assert !HasSeg(t, dbg, i);
      }
    }
  }

  lemma SpansMet(t: Tables, dbg: Path, f: File)
    requires WellFormed(f)
    ensures (forall x, y :: x in t.spans && y in NewSpans(t, dbg, f, |f.spans|) ==> SpanKey()(x) != SpanKey()(y))
            <==> forall j :: 0 <= j < |f.spans| ==> !HasSpan(t, dbg, j)
  {
    var spans := NewSpans(t, dbg, f, |f.spans|);
    if j :| 0 <= j < |f.spans| && HasSpan(t, dbg, j) {
      var p :| p in t.spans && p.seg.dbg == dbg && p.j == j;
      assert spans[j] in spans && SpanKey()(p) == SpanKey()(spans[j]);
    } else {
      forall x, y | x in t.spans && y in spans
        ensures SpanKey()(x) != SpanKey()(y)
      {
        var i :| 0 <= i < |spans| && spans[i] == y;
        assert !HasSpan(t, dbg, i);
      }
    }
  }

  lemma MergedOrigins(t: Tables, dbg: Path, f: File)
    requires WellFormed(f) && f.segs != []
    ensures Origins(Merged(t, dbg, f)) == Origins(t) + {(dbg, t.next as int)}
  {
    var m, o := Merged(t, dbg, f), (dbg, t.next as int);
    MergedSeg(t, dbg, f, NewSeg(t, dbg, f, 0));
    assert o in Origins(m);
    forall a | a in Origins(m)
      ensures a in Origins(t) || a == o
    {
      if s :| s in m.segs && (s.dbg, Reading(s)) == a {
        MergedSeg(t, dbg, f, s);
      } else {
        var p :| p in m.spans && (p.seg.dbg, Reading(p.seg)) == a;
        MergedSpan(t, dbg, f, p);
      }
    }
    forall a | a in Origins(t)
      ensures a in Origins(m)
    {
      if s :| s in t.segs && (s.dbg, Reading(s)) == a {
        assert s in m.segs;
      } else {
        var p :| p in t.spans && (p.seg.dbg, Reading(p.seg)) == a;
        assert p in m.spans;
      }
    }
  }

  lemma OriginsOld(t: Tables, o: (Path, int))
    requires Numbered(t) && o in Origins(t)
    ensures o.1 < t.next
  {
    if s :| s in t.segs && (s.dbg, Reading(s)) == o {
      assert s.id < t.next;
    } else {
      var p :| p in t.spans && (p.seg.dbg, Reading(p.seg)) == o;
      assert p.seg.id < t.next;
    }
  }

  /** Something of the .dbg is there. */
  ghost predicate Leftover(t: Tables, dbg: Path) {
    (exists s :: s in t.segs && s.dbg == dbg) || exists p :: p in t.spans && p.seg.dbg == dbg
  }

  lemma LeftoverOrigin(t: Tables, dbg: Path)
    ensures Leftover(t, dbg) <==> exists o :: o in Origins(t) && o.0 == dbg
  {
    if s :| s in t.segs && s.dbg == dbg {
      assert (s.dbg, Reading(s)) in Origins(t);
    } else if p :| p in t.spans && p.seg.dbg == dbg {
      assert (p.seg.dbg, Reading(p.seg)) in Origins(t);
    }
  }

  /** Merging mixes two readings exactly when anything of the .dbg was there already. */
  lemma MergedOneReading(t: Tables, dbg: Path, f: File)
    requires Numbered(t) && WellFormed(f) && f.segs != []
    ensures OneReading(Merged(t, dbg, f)) <==> OneReading(t) && !Leftover(t, dbg)
  {
    var m, o := Merged(t, dbg, f), (dbg, t.next as int);
    MergedOrigins(t, dbg, f);
    LeftoverOrigin(t, dbg);
    if a :| a in Origins(t) && a.0 == dbg {
      OriginsOld(t, a);
      assert a in Origins(m) && o in Origins(m) && a != o;
    }
    if OneReading(m) {
      assert forall a :: a in Origins(t) ==> a in Origins(m);
    }
  }

  /** Where everything of a .dbg comes from one reading, nothing of it is there twice. */
  lemma OneReadingOneCopy(t: Tables)
    requires Numbered(t) && OneReading(t)
    ensures OneCopy(t)
  {
    forall i, j | 0 <= i < j < |t.segs|
      ensures SegKey()(t.segs[i]) != SegKey()(t.segs[j])
    {
      var a, b := t.segs[i], t.segs[j];
      assert (a.dbg, Reading(a)) in Origins(t) && (b.dbg, Reading(b)) in Origins(t);
      assert SegId()(a) != SegId()(b);
    }
    forall i, j | 0 <= i < j < |t.spans|
      ensures SpanKey()(t.spans[i]) != SpanKey()(t.spans[j])
    {
      var a, b := t.spans[i], t.spans[j];
      assert (a.seg.dbg, Reading(a.seg)) in Origins(t) && (b.seg.dbg, Reading(b.seg)) in Origins(t);
      assert SpanId()(a) != SpanId()(b);
    }
  }
}
