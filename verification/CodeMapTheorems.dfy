/**
 What the anchored disassembler's window is worth to its callers, for any evidence.
 */
module CodeMapTheorems {
  import opened Machine
  import opened CodeMapEvidence
  import opened CodeMapRows
  import opened CodeMapTiling
  import opened CodeMapWindow

  // ---- The rows tile, and the centre is among them -------------------------------

  /** What is kept in front of the centre tiles, and ends on it. */
  lemma PlacedTiles(em: Emitter, pk: Picker, gr: nat -> seq<Row>, center: Addr, e0: bool, n: nat, cap: nat)
    requires Bounded(em) && EndsThere(pk) && Grouped(em, pk, e0, center, gr)
    ensures var back := Placed(gr, n, cap); Tiles(back) && (back != [] ==> EndOf(back, 0) == center)
  {
    if n > 0 {
      PlacedIsSuffix(gr, n, cap);
      BeforeSpans(em, pk, e0, center, gr, n);
      SuffixTiles(Before(gr, n), cap);
    }
  }

  /** Rows that end on the centre, then rows that start on it. */
  lemma CentreJoins(back: seq<Row>, front: seq<Row>, center: Addr, cap: nat)
    requires Tiles(back) && (back != [] ==> EndOf(back, 0) == center)
    requires Tiles(front) && front != [] && front[0].addr == center && |back| + |front| <= cap
    ensures var rows := back + front; Tiles(rows) && |back| < |rows| <= cap && rows[|back|].addr == center
  {
    TilesJoin(back, front);
  }

  /** A window built from any sound emitter and groups tiles, with its centre row in place. */
  lemma BuiltTiles(em: Emitter, pk: Picker, gr: nat -> seq<Row>, center: Addr, st: Byte, e: bool, e0: bool,
                   linesBefore: int, linesAfter: int, cap: nat)
    requires Bounded(em) && EndsThere(pk) && Grouped(em, pk, e0, center, gr) && 0 < cap
    ensures var rows := Built(em, gr, center, st, e, linesBefore, linesAfter, cap);
            var b := |Placed(gr, ClampBefore(linesBefore), BackCapacity(cap))|;
            Tiles(rows) && b < |rows| <= cap && rows[b].addr == center
  {
    var back := Placed(gr, ClampBefore(linesBefore), BackCapacity(cap));
    var count := FrontCount(linesAfter, cap - |back|);
    PlacedTiles(em, pk, gr, center, e0, ClampBefore(linesBefore), BackCapacity(cap));
    ForwardTiles(em, center, st, e, count);
    CentreJoins(back, Forward(em, center, st, e, count), center, cap);
  }

  /** The rows of a window tile, never exceed the capacity, and always include the centre. */
  lemma WindowTiles(ev: Evidence, center: Addr, linesBefore: int, linesAfter: int, cap: nat)
    requires 0 < cap
    ensures var rows := Window(ev, center, linesBefore, linesAfter, cap);
            var b := |Back(ev, center, linesBefore, cap)|;
            Tiles(rows) && b < |rows| <= cap && rows[b].addr == center
  {
    var em, pk, gr := Parts(ev, center, linesBefore, linesAfter, cap);
    BuiltTiles(em, pk, gr, center, ev.RecordedStatus(center, ev.regStatus), ev.regE, ev.regE,
               linesBefore, linesAfter, cap);
  }

  // ---- Every row is honest about its evidence --------------------------------------

  ghost function KeptRow(ev: Evidence): Row -> bool {
    row => Kept(ev, row)
  }

  lemma EmitterKeeps(ev: Evidence)
    ensures Yields(RowEmitter(ev), KeptRow(ev))
  {
    forall a: Addr, st: Byte, e: bool, room: nat
      ensures KeptRow(ev)(RowEmitter(ev)(a, st, e, room).row)
    {
      EmittedRowKept(ev, a, st, room);
    }
  }

  lemma BuiltAll(em: Emitter, pk: Picker, gr: nat -> seq<Row>, center: Addr, st: Byte, e: bool, e0: bool,
                 linesBefore: int, linesAfter: int, cap: nat, p: Row -> bool)
    requires Yields(em, p) && Grouped(em, pk, e0, center, gr) && 0 < cap
    ensures All(Built(em, gr, center, st, e, linesBefore, linesAfter, cap), p)
  {
    var n := ClampBefore(linesBefore);
    PlacedIsSuffix(gr, n, BackCapacity(cap));
    BeforeAll(em, pk, e0, center, gr, n, p);
    SuffixAll(Before(gr, n), BackCapacity(cap), p);
    ForwardAll(em, center, st, e, FrontCount(linesAfter, cap - |Placed(gr, n, BackCapacity(cap))|), p);
  }

  /**
   No row of a window swallows a believed instruction start unless it starts on one itself,
   and size, kind, effective address, bytes and the recorded flags of every row agree.
   */
  lemma WindowRowsKept(ev: Evidence, center: Addr, linesBefore: int, linesAfter: int, cap: nat, row: Row)
    requires 0 < cap && row in Window(ev, center, linesBefore, linesAfter, cap)
    ensures SwallowsNoAnchor(ev, row) && Honest(ev, row)
  {
    EmitterKeeps(ev);
    GroupsSound(ev, center);
    BuiltAll(RowEmitter(ev), WalkPicker(ev), GroupsBefore(ev, center), center, ev.RecordedStatus(center, ev.regStatus),
             ev.regE, ev.regE, linesBefore, linesAfter, cap, KeptRow(ev));
    assert KeptRow(ev)(row);
  }

  // ---- Shrinking the buffer only drops far context ------------------------------------

  /** Every row of the instructions asked for in front of the centre, as if there were no capacity. */
  function Unbounded(ev: Evidence, center: Addr, linesBefore: int): seq<Row> {
    Before(GroupsBefore(ev, center), ClampBefore(linesBefore))
  }

  /** The first `b` rows are the last ones of `all` that fit, the others the first ones of `run`. */
  predicate NearestOf(rows: seq<Row>, b: nat, all: seq<Row>, run: seq<Row>, cap: nat) {
    && b == (if |all| < cap - 1 then |all| else cap - 1)
    && b <= |rows| && |rows| - b <= |run|
    && rows[..b] == all[|all|-b..]
    && rows[b..] == run[..|rows|-b]
  }

  lemma Assemble(back: seq<Row>, front: seq<Row>, all: seq<Row>, run: seq<Row>, cap: nat)
    requires |back| == (if |all| < cap - 1 then |all| else cap - 1) && back == all[|all|-|back|..]
    requires front <= run
    ensures NearestOf(back + front, |back|, all, run, cap)
  {
    SplitJoin(back, front);
  }

  /** What the window, its back, the unbounded tiling and the forward run are made of. */
  ghost predicate MadeOf(ev: Evidence, center: Addr, linesBefore: int, linesAfter: int, cap: nat, longer: nat,
                         em: Emitter, gr: nat -> seq<Row>, st: Byte)
    requires 0 < cap
  {
    && Window(ev, center, linesBefore, linesAfter, cap)
       == Built(em, gr, center, st, ev.regE, linesBefore, linesAfter, cap)
    && Back(ev, center, linesBefore, cap) == Placed(gr, ClampBefore(linesBefore), BackCapacity(cap))
    && Unbounded(ev, center, linesBefore) == Before(gr, ClampBefore(linesBefore))
    && From(ev, center, longer) == Forward(em, center, st, ev.regE, longer)
  }

  lemma MadeOfParts(ev: Evidence, center: Addr, linesBefore: int, linesAfter: int, cap: nat, longer: nat)
    requires 0 < cap
    ensures MadeOf(ev, center, linesBefore, linesAfter, cap, longer,
                   RowEmitter(ev), GroupsBefore(ev, center), ev.RecordedStatus(center, ev.regStatus))
  {
  }

  /**
   In front of the centre a window holds exactly the end of the unbounded tiling; from the
   centre on it holds the start of what a forward run from the centre yields.
   */
  lemma WindowIsNearestPart(ev: Evidence, center: Addr, linesBefore: int, linesAfter: int, cap: nat, longer: nat)
    requires 0 < cap <= longer
    ensures NearestOf(Window(ev, center, linesBefore, linesAfter, cap), |Back(ev, center, linesBefore, cap)|,
                      Unbounded(ev, center, linesBefore), From(ev, center, longer), cap)
  {
    MadeOfParts(ev, center, linesBefore, linesAfter, cap, longer);
    MadeNearest(ev, center, linesBefore, linesAfter, cap, longer,
                RowEmitter(ev), GroupsBefore(ev, center), ev.RecordedStatus(center, ev.regStatus));
  }

  lemma MadeNearest(ev: Evidence, center: Addr, linesBefore: int, linesAfter: int, cap: nat, longer: nat,
                    em: Emitter, gr: nat -> seq<Row>, st: Byte)
    requires 0 < cap <= longer && MadeOf(ev, center, linesBefore, linesAfter, cap, longer, em, gr, st)
    ensures NearestOf(Window(ev, center, linesBefore, linesAfter, cap), |Back(ev, center, linesBefore, cap)|,
                      Unbounded(ev, center, linesBefore), From(ev, center, longer), cap)
  {
    NearestPart(em, gr, center, st, ev.regE, linesBefore, linesAfter, cap, longer);
  }

  lemma NearestPart(em: Emitter, gr: nat -> seq<Row>, center: Addr, st: Byte, e: bool,
                    linesBefore: int, linesAfter: int, cap: nat, longer: nat)
    requires 0 < cap <= longer
    ensures NearestOf(Built(em, gr, center, st, e, linesBefore, linesAfter, cap),
                      |Placed(gr, ClampBefore(linesBefore), BackCapacity(cap))|,
                      Before(gr, ClampBefore(linesBefore)), Forward(em, center, st, e, longer), cap)
  {
    var n := ClampBefore(linesBefore);
    var back := Placed(gr, n, BackCapacity(cap));
    var count := FrontCount(linesAfter, cap - |back|);
    PlacedIsSuffix(gr, n, BackCapacity(cap));
    SuffixIs(Before(gr, n), BackCapacity(cap));
    ForwardPrefix(em, center, st, e, count, longer);
    Assemble(back, Forward(em, center, st, e, count), Before(gr, n), Forward(em, center, st, e, longer), cap);
  }

  lemma SplitJoin<T>(a: seq<T>, b: seq<T>)
    ensures (a + b)[..|a|] == a && (a + b)[|a|..] == b
  {
  }

  // ---- Executed code is shown exactly as it ran -----------------------------------------

  /** `a` is a believed start whose decode, at the status it ran with, ends exactly at `b`. */
  ghost predicate RanInto(ev: Evidence, a: Addr, b: Addr) {
    var raw := ev.disasm(a, ev.anchorStatus(a)).len;
    ev.believed(a) && b == After(a, if raw >= 1 then raw else 1)
  }

  /** The instruction `k` bytes back ran into `b`. */
  ghost predicate RanFrom(ev: Evidence, k: nat, b: Addr) {
    RanInto(ev, Prior(b, k), b)
  }

  /** No believed start less than `size` bytes before `b` ran into it. */
  ghost predicate NoneNearer(ev: Evidence, size: nat, b: Addr) {
    forall k: nat {:trigger RanFrom(ev, k, b)} :: 1 <= k < size ==> !RanFrom(ev, k, b)
  }

  /** The recorded instruction at `a`, as the walk would pick it. */
  function RanPick(ev: Evidence, a: Addr): Pick {
    Pick(a, ev.anchorStatus(a), ev.Decode(a, ev.anchorStatus(a)), true)
  }

  /**
   The walk steps from `b` back to the instruction that ran into it, exactly when no other
   believed start nearer `b` runs into it too.
   */
  lemma WalkFollowsExecution(ev: Evidence, a: Addr, b: Addr)
    requires RanInto(ev, a, b)
    ensures PrevPick(ev, b) == RanPick(ev, a) <==> NoneNearer(ev, RanPick(ev, a).size, b)
  {
    var size := RanPick(ev, a).size;
    PriorAfter(a, size);
    var n := BestBackoff(Ranks(ev, b));
    BestBackoffIsBest(Ranks(ev, b), size);
    assert Ranks(ev, b)(size) == 3;
    assert Ranks(ev, b)(n) == 3 && 0 < n <= size;
    RankThreeRanFrom(ev, b, n);
    forall k: nat | 1 <= k < size && RanFrom(ev, k, b)
      ensures n != size
    {
      RankThreeRanFrom(ev, b, k);
      BestBackoffIsBest(Ranks(ev, b), k);
    }
    if n < size {
      PriorDistinct(b, n, size);
    }
  }

  lemma PriorAfter(a: Addr, n: nat)
    ensures Prior(After(a, n), n) == a
  {
  }

  lemma PriorDistinct(b: Addr, m: nat, n: nat)
    requires m < n < 0x10000
    ensures Prior(b, m) != Prior(b, n)
  {
  }

  lemma RankThreeRanFrom(ev: Evidence, b: Addr, k: Span)
    ensures Rank(ev, b, k) == 3 <==> RanFrom(ev, k, b)
  {
    AfterPrior(b, k);
    var p := Prior(b, k);
    var d := ev.Decode(p, ev.anchorStatus(p));
    if ev.believed(p) && After(p, d) == b {
      PriorAfter(p, d);
      if d < k {
        PriorDistinct(b, d, k);
      } else if k < d {
        PriorDistinct(b, k, d);
      }
    }
  }

  ghost predicate RanAt(ev: Evidence, path: seq<Addr>, i: nat)
    requires i + 1 < |path|
  {
    RanInto(ev, path[i], path[i+1])
  }

  /** Each address of the path ran into the next. */
  ghost predicate Ran(ev: Evidence, path: seq<Addr>) {
    forall i: nat {:trigger RanAt(ev, path, i)} :: i + 1 < |path| ==> RanAt(ev, path, i)
  }

  /** The instruction at `i` ran into the next, and no believed start nearer that one does. */
  ghost predicate RanAloneAt(ev: Evidence, path: seq<Addr>, i: nat)
    requires i + 1 < |path|
  {
    RanAt(ev, path, i) && NoneNearer(ev, RanPick(ev, path[i]).size, path[i+1])
  }

  /** Consecutive addresses of a path that ran, with no second recorded path overlapping it. */
  ghost predicate Executed(ev: Evidence, path: seq<Addr>) {
    && path != []
    && forall i: nat {:trigger RanAloneAt(ev, path, i)} :: i + 1 < |path| ==> RanAloneAt(ev, path, i)
  }

  /** The whole, recorded instruction at a believed start. */
  ghost predicate ShownWhole(ev: Evidence, row: Row, a: Addr) {
    && row.addr == a && row.status == ev.anchorStatus(a)
    && Whole(row.size, ev.disasm(a, ev.anchorStatus(a)).len)
    && row.kind == Instruction && row.recorded
  }

  /** A believed start given at least the room it ran with is shown whole, whatever the estimate. */
  lemma BelievedShownWhole(ev: Evidence, a: Addr, st: Byte, e: bool, room: nat)
    requires ev.believed(a) && (room == 0 || room >= ev.Decode(a, ev.anchorStatus(a)))
    ensures ShownWhole(ev, RowEmitter(ev)(a, st, e, room).row, a)
  {
  }

  /** The walk steps from instruction `i + 1` of the path to instruction `i`, and one row shows that one. */
  ghost predicate ShowsStep(ev: Evidence, path: seq<Addr>, em: Emitter, pk: Picker, e: bool, i: nat)
    requires i + 1 < |path|
  {
    var g := GroupBefore(em, pk, e, path[i+1]);
    pk(path[i+1]).addr == path[i] && |g| == 1 && ShownWhole(ev, g[0], path[i])
  }

  ghost predicate ShowsSteps(ev: Evidence, path: seq<Addr>, em: Emitter, pk: Picker, e: bool) {
    forall i: nat {:trigger ShowsStep(ev, path, em, pk, e, i)} :: i + 1 < |path| ==> ShowsStep(ev, path, em, pk, e, i)
  }

  lemma ExecutedStepShown(ev: Evidence, path: seq<Addr>, i: nat)
    requires Executed(ev, path) && i + 1 < |path|
    ensures ShowsStep(ev, path, RowEmitter(ev), WalkPicker(ev), ev.regE, i)
  {
    var a, b := path[i], path[i+1];
    assert RanAloneAt(ev, path, i);
    WalkFollowsExecution(ev, a, b);
    BelievedShownWhole(ev, a, ev.anchorStatus(a), ev.regE, RanPick(ev, a).size);
  }

  /** Row `i` of `rows` shows instruction `at + i` of the path, whole. */
  ghost predicate ShowsPath(ev: Evidence, rows: seq<Row>, path: seq<Addr>, at: nat) {
    at + |rows| <= |path| && forall i :: 0 <= i < |rows| ==> ShownWhole(ev, rows[i], path[at + i])
  }

  lemma ShowsMore(ev: Evidence, far: seq<Row>, near: seq<Row>, path: seq<Addr>, at: nat)
    requires |far| == 1 && ShowsPath(ev, far, path, at) && ShowsPath(ev, near, path, at + 1)
    ensures ShowsPath(ev, far + near, path, at)
  {
  }

  lemma {:induction false} StepsShowPath(ev: Evidence, path: seq<Addr>, em: Emitter, pk: Picker, e: bool,
                                         gr: nat -> seq<Row>, n: nat)
    requires n < |path| && ShowsSteps(ev, path, em, pk, e)
    requires Grouped(em, pk, e, path[|path|-1], gr)
    ensures Boundary(pk, path[|path|-1], n) == path[|path|-1-n]
    ensures var rows := Before(gr, n); |rows| == n && ShowsPath(ev, rows, path, |path| - 1 - n)
  {
    if n > 0 {
      var at := |path| - 1 - n;
      StepsShowPath(ev, path, em, pk, e, gr, n - 1);
      assert ShowsStep(ev, path, em, pk, e, at);
      assert GroupAt(em, pk, e, path[|path|-1], gr, n - 1);
      ShowsMore(ev, gr(n - 1), Before(gr, n - 1), path, at);
    }
  }

  /** The unbounded tiling before the end of a path, made of groups that show each step of it. */
  ghost predicate MadeOfSteps(ev: Evidence, path: seq<Addr>, em: Emitter, pk: Picker, gr: nat -> seq<Row>)
    requires path != []
  {
    && ShowsSteps(ev, path, em, pk, ev.regE) && Grouped(em, pk, ev.regE, path[|path|-1], gr)
    && Unbounded(ev, path[|path|-1], |path| - 1) == Before(gr, ClampBefore(|path| - 1))
  }

  lemma MadeOfStepsParts(ev: Evidence, path: seq<Addr>)
    requires Executed(ev, path)
    ensures MadeOfSteps(ev, path, RowEmitter(ev), WalkPicker(ev), GroupsBefore(ev, path[|path|-1]))
  {
    AllStepsShown(ev, path);
    GroupsSound(ev, path[|path|-1]);
  }

  lemma StepsShown(ev: Evidence, path: seq<Addr>, em: Emitter, pk: Picker, gr: nat -> seq<Row>)
    requires path != [] && |path| - 1 <= MAX_BEFORE && MadeOfSteps(ev, path, em, pk, gr)
    ensures var rows := Unbounded(ev, path[|path|-1], |path| - 1);
            |rows| == |path| - 1 && ShowsPath(ev, rows, path, 0)
  {
    StepsShowPath(ev, path, em, pk, ev.regE, gr, |path| - 1);
  }

  /**
   Where live execution recorded the code in front of the centre, the tiling shows exactly the
   instructions that ran, each whole: one row an instruction, none invented, none cut.
   */
  lemma ExecutedCodeShownExactly(ev: Evidence, path: seq<Addr>)
    requires Executed(ev, path) && |path| - 1 <= MAX_BEFORE
    ensures var rows := Unbounded(ev, path[|path|-1], |path| - 1);
            |rows| == |path| - 1 && ShowsPath(ev, rows, path, 0)
  {
    MadeOfStepsParts(ev, path);
    StepsShown(ev, path, RowEmitter(ev), WalkPicker(ev), GroupsBefore(ev, path[|path|-1]));
  }

  lemma AllStepsShown(ev: Evidence, path: seq<Addr>)
    requires Executed(ev, path)
    ensures ShowsSteps(ev, path, RowEmitter(ev), WalkPicker(ev), ev.regE)
  {
    forall i: nat | i + 1 < |path|
      ensures ShowsStep(ev, path, RowEmitter(ev), WalkPicker(ev), ev.regE, i)
    {
      ExecutedStepShown(ev, path, i);
    }
  }

  /** A forward run over a path that ran shows it instruction by instruction, whatever the estimate. */
  lemma {:induction false} ForwardFollowsExecution(ev: Evidence, path: seq<Addr>, at: nat, st: Byte, e: bool, n: nat)
    requires Ran(ev, path)
    requires at + n < |path|
    ensures ShowsPath(ev, Forward(RowEmitter(ev), path[at], st, e, n), path, at)
    decreases n
  {
    if n > 0 {
      var next := path[at + 1];
      assert RanAt(ev, path, at);
      BelievedShownWhole(ev, path[at], st, e, 0);
      var x := RowEmitter(ev)(path[at], st, e, 0);
      assert Past(x.row) == next;
      ForwardFollowsExecution(ev, path, at + 1, x.status, x.e, n - 1);
      ShowsMore(ev, [x.row], Forward(RowEmitter(ev), next, x.status, x.e, n - 1), path, at);
    }
  }
}
