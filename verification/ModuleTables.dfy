/**
 The debug-info tables as the module registry sees them: segment and span records of the
 .dbg files read so far, and what unloading an address range and merging a file do to them.
 A file is whatever was there to be read: a .dbg may be rebuilt between two readings, or
 read while it is still being written.
 */
module ModuleTables {
  import opened Compaction

  const TOP: nat := 0xFFFFFF

  type Path = string

  /** A segment as a .dbg file declares it, and a span by segment number and offset. */
  datatype FileSeg = FileSeg(start: nat, size: nat)
  datatype FileSpan = FileSpan(seg: nat, offset: nat)
  datatype File = File(segs: seq<FileSeg>, spans: seq<FileSpan>)

  /** Every span names a segment of its own file. */
  predicate WellFormed(f: File) {
    forall j :: 0 <= j < |f.spans| ==> f.spans[j].seg < |f.segs|
  }

  /** A record remembers the .dbg it came from and its place there. */
  datatype Seg = Seg(id: nat, dbg: Path, k: nat, start: nat, size: nat)
  datatype Span = Span(seg: Seg, j: nat, offset: nat)

  datatype Tables = Tables(loaded: bool, segs: seq<Seg>, spans: seq<Span>, next: nat)

  const Empty: Tables := Tables(false, [], [], 0)

  /** IDs are handed out in order, so this tells the readings of a file apart. */
  function Reading(s: Seg): int {
    s.id - s.k
  }

  function Declared(s: Seg): FileSeg {
    FileSeg(s.start, s.size)
  }

  // ---- Unloading a range -----------------------------------------------------------------

  datatype Range = Range(start: nat, end: nat)

  /** Not wholly inside the range. */
  function SegStays(r: Range): Seg -> bool {
    (s: Seg) => !(r.start <= s.start && (if s.size > 0 then s.start + s.size - 1 else s.start) <= r.end)
  }

  /** Not starting inside the range, going by the segment it belongs to if that is still there. */
  function SpanStays(segs: seq<Seg>, r: Range): Span -> bool {
    (p: Span) => !(p.seg in segs && p.seg.start + p.offset <= TOP && r.start <= p.seg.start + p.offset <= r.end)
  }

  function Unloaded(t: Tables, r: Range): Tables {
    if !t.loaded then t
    else t.(spans := Filter(SpanStays(t.segs, r), t.spans), segs := Filter(SegStays(r), t.segs))
  }

  // ---- Merging a file --------------------------------------------------------------------

  function NewSeg(t: Tables, dbg: Path, f: File, k: nat): Seg
    requires k < |f.segs|
  {
    Seg(t.next + k, dbg, k, f.segs[k].start, f.segs[k].size)
  }

  function NewSpan(t: Tables, dbg: Path, f: File, j: nat): Span
    requires j < |f.spans| && f.spans[j].seg < |f.segs|
  {
    Span(NewSeg(t, dbg, f, f.spans[j].seg), j, f.spans[j].offset)
  }

  /** The first `n` segment records of the file, under fresh IDs. */
  function NewSegs(t: Tables, dbg: Path, f: File, n: nat): seq<Seg>
    requires n <= |f.segs|
  {
    seq(n, k requires 0 <= k < n => NewSeg(t, dbg, f, k))
  }

  function NewSpans(t: Tables, dbg: Path, f: File, n: nat): seq<Span>
    requires WellFormed(f) && n <= |f.spans|
  {
    seq(n, j requires 0 <= j < n => NewSpan(t, dbg, f, j))
  }

  /** The records of the file appended, IDs moving past the highest handed out. */
  function Merged(t: Tables, dbg: Path, f: File): Tables
    requires WellFormed(f)
  {
    t.(segs := t.segs + NewSegs(t, dbg, f, |f.segs|), spans := t.spans + NewSpans(t, dbg, f, |f.spans|),
       next := t.next + |f.segs|)
  }

  // ---- The range a file covers ---------------------------------------------------------

  /** The scan skips empty segments and ones beyond the top of memory. */
  predicate Solid(s: FileSeg) {
    s.size > 0 && s.start <= TOP
  }

  function Last(s: FileSeg): nat
    requires Solid(s)
  {
    if s.start + s.size - 1 > TOP then TOP else s.start + s.size - 1
  }

  /** The least start and the greatest end among the first `n` segments. */
  function Scanned(f: File, n: nat): Range
    requires n <= |f.segs|
  {
    if n == 0 then Range(TOP, 0)
    else if !Solid(f.segs[n-1]) then Scanned(f, n - 1)
    else
      var s, r := f.segs[n-1], Scanned(f, n - 1);
      Range(if s.start < r.start then s.start else r.start, if Last(s) > r.end then Last(s) else r.end)
  }

  function RangeOf(f: File): Range {
    Scanned(f, |f.segs|)
  }

  /** The scan has found something. */
  predicate Described(f: File) {
    RangeOf(f).start <= RangeOf(f).end
  }

  // ---- The .dbg beside a program ---------------------------------------------------------

  const PATH_MAX: nat := 1024

  /** The last dot of a name after its last separator, among the first `n` characters; -1 if none. */
  function LastDot(path: Path, n: nat): (at: int)
    requires n <= |path|
    ensures -1 <= at < n
  {
    if n == 0 || path[n-1] == '/' || path[n-1] == '\\' then -1
    else if path[n-1] == '.' then n - 1
    else LastDot(path, n - 1)
  }

  /** Where the extension starts, replacing one or appended. */
  function StemLength(path: Path): nat {
    if LastDot(path, |path|) < 0 then |path| else LastDot(path, |path|)
  }

  function DbgPath(path: Path): Path {
    path[..StemLength(path)] + ".dbg"
  }

  /** The name fits the buffer it is built in. */
  predicate Nameable(path: Path) {
    |path| < PATH_MAX && StemLength(path) + 4 < PATH_MAX
  }

  // ---- What is in the tables --------------------------------------------------------------

  function SegId(): Seg -> nat {
    (s: Seg) => s.id
  }

  function SpanId(): Span -> (int, nat) {
    (p: Span) => (Reading(p.seg), p.j)
  }

  /** IDs are never reused, and no reading holds a span twice. */
  ghost predicate Numbered(t: Tables) {
    (forall s :: s in t.segs ==> s.k <= s.id < t.next)
    && (forall p :: p in t.spans ==> p.seg.k <= p.seg.id < t.next)
    && UniqueBy(SegId(), t.segs) && UniqueBy(SpanId(), t.spans)
  }

  function SegKey(): Seg -> (Path, nat) {
    (s: Seg) => (s.dbg, s.k)
  }

  function SpanKey(): Span -> (Path, nat) {
    (p: Span) => (p.seg.dbg, p.j)
  }

  /** No record of a .dbg is there twice. */
  ghost predicate OneCopy(t: Tables) {
    UniqueBy(SegKey(), t.segs) && UniqueBy(SpanKey(), t.spans)
  }

  /** The files and readings the records come from. */
  ghost function Origins(t: Tables): set<(Path, int)> {
    (set s | s in t.segs :: (s.dbg, Reading(s))) + (set p | p in t.spans :: (p.seg.dbg, Reading(p.seg)))
  }

  /** All there is of a .dbg comes from one reading of it. */
  ghost predicate OneReading(t: Tables) {
    forall a, b :: a in Origins(t) && b in Origins(t) && a.0 == b.0 ==> a == b
  }

  ghost predicate HasSeg(t: Tables, dbg: Path, k: nat) {
    exists s :: s in t.segs && s.dbg == dbg && s.k == k
  }

  ghost predicate HasSpan(t: Tables, dbg: Path, j: nat) {
    exists p :: p in t.spans && p.seg.dbg == dbg && p.j == j
  }

  /** Some record of these numbers is there. */
  ghost predicate SomePresent(t: Tables, dbg: Path, f: File) {
    (exists k :: 0 <= k < |f.segs| && HasSeg(t, dbg, k))
    || exists j :: 0 <= j < |f.spans| && HasSpan(t, dbg, j)
  }

  /** The segment is there as the file declares it. */
  ghost predicate SegThere(t: Tables, dbg: Path, f: File, k: nat)
    requires k < |f.segs|
  {
    exists s :: s in t.segs && s.dbg == dbg && s.k == k && Declared(s) == f.segs[k]
  }

  /** The span starts inside a segment of the file that the scan counts. */
  predicate Inside(f: File, j: nat)
    requires j < |f.spans|
  {
    f.spans[j].seg < |f.segs| && Solid(f.segs[f.spans[j].seg]) && f.spans[j].offset < f.segs[f.spans[j].seg].size
  }

  /** The span is there as the file declares it, and so is its segment. */
  ghost predicate SpanThere(t: Tables, dbg: Path, f: File, j: nat)
    requires j < |f.spans| && f.spans[j].seg < |f.segs|
  {
    exists p :: p in t.spans && p.seg in t.segs && p.seg.dbg == dbg && p.j == j
                && FileSpan(p.seg.k, p.offset) == f.spans[j] && Declared(p.seg) == f.segs[f.spans[j].seg]
  }

  /** The module is wholly there: every segment the scan counts, and every span inside one. */
  ghost predicate Present(t: Tables, dbg: Path, f: File) {
    (forall k :: 0 <= k < |f.segs| && Solid(f.segs[k]) ==> SegThere(t, dbg, f, k))
    && forall j :: 0 <= j < |f.spans| && Inside(f, j) ==> SpanThere(t, dbg, f, j)
  }
}
