/**
 The anchored disassembly: the backward walk that chooses instruction boundaries by
 ranked evidence, the window tiled around a fixed centre row under a hard capacity, and
 the plain forward run, each proved against the functions of CodeMapTiling.
 */
module CodeMapWindow {
  import opened Machine
  import opened CodeMapEvidence
  import opened CodeMapRows
  import opened CodeMapTiling

  const MAX_BEFORE: nat := 255

  // ---- One step back ----------------------------------------------------------

  /** How good the evidence for a candidate is; see Rank. */
  type Quality = q: nat | q <= 3

  /** The status a candidate `k` bytes before `a` is decoded with. */
  function CandidateStatus(ev: Evidence, a: Addr, k: nat): Byte {
    ev.RecordedStatus(Prior(a, k), ev.RecordedStatus(a, ev.regStatus))
  }

  /**
   How good the evidence is that an instruction starts `k` bytes before `a`: 0 when its
   decode does not land on `a`, else 3 for live coverage, 2 for a span start, 1 for neither.
   */
  function Rank(ev: Evidence, a: Addr, k: nat): Quality {
    var p := Prior(a, k);
    if ev.Decode(p, CandidateStatus(ev, a, k)) != k then 0
    else if ev.believed(p) then 3
    else if ev.spanStart(p) then 2
    else 1
  }

  function PickAt(ev: Evidence, a: Addr, k: Span): Pick {
    var p := Prior(a, k);
    Pick(p, CandidateStatus(ev, a, k), k, ev.believed(p))
  }

  function Ranks(ev: Evidence, a: Addr): nat -> Quality {
    k => Rank(ev, a, k)
  }

  /** The nearest candidate, from `k` back, of rank `r` or better; 0 when there is none. */
  function Nearest(ranks: nat -> Quality, r: nat, k: nat): (n: nat)
    requires 1 <= k
    ensures n == 0 || k <= n <= MAX_INSN_LEN
    decreases MAX_INSN_LEN + 1 - k
  {
    if k > MAX_INSN_LEN then 0
    else if ranks(k) >= r then k
    else Nearest(ranks, r, k + 1)
  }

  lemma {:induction false} NearestIs(ranks: nat -> Quality, r: nat, k: nat)
    requires 1 <= k
    ensures var n := Nearest(ranks, r, k);
            && (n > 0 ==> ranks(n) >= r)
            && (forall j :: k <= j <= MAX_INSN_LEN && (n == 0 || j < n) ==> ranks(j) < r)
    decreases MAX_INSN_LEN + 1 - k
  {
    if k <= MAX_INSN_LEN && ranks(k) < r {
      NearestIs(ranks, r, k + 1);
    }
  }

  /** The distance to the best candidate: the best rank first, then the nearest of it; 0 for none. */
  function BestBackoff(ranks: nat -> Quality): (n: nat)
    ensures n <= MAX_INSN_LEN
  {
    var recorded, span, sync := Nearest(ranks, 3, 1), Nearest(ranks, 2, 1), Nearest(ranks, 1, 1);
    if recorded > 0 then recorded else if span > 0 then span else sync
  }

  lemma BestBackoffIsBest(ranks: nat -> Quality, j: Span)
    ensures var n := BestBackoff(ranks);
            && (n == 0 ==> ranks(j) == 0)
            && (n > 0 ==> 0 < ranks(n) && ranks(j) <= ranks(n))
            && (0 < j < n ==> ranks(j) < ranks(n))
  {
    NearestIs(ranks, 3, 1);
    NearestIs(ranks, 2, 1);
    NearestIs(ranks, 1, 1);
  }

  /** What the walk backs up over; one byte when nothing decodes onto `a`. */
  function PrevPick(ev: Evidence, a: Addr): Pick {
    var k := BestBackoff(Ranks(ev, a));
    if k > 0 then PickAt(ev, a, k)
    else Pick(Prior(a, 1), ev.RecordedStatus(a, ev.regStatus), 1, false)
  }

  function WalkPicker(ev: Evidence): Picker {
    (a: Addr) => PrevPick(ev, a)
  }

  ghost predicate PicksAt(ev: Evidence, pk: Picker, a: Addr) {
    pk(a) == PrevPick(ev, a)
  }

  /** `pk` makes exactly the walk's decisions. */
  ghost predicate Picks(ev: Evidence, pk: Picker) {
    forall a: Addr {:trigger PicksAt(ev, pk, a)} :: PicksAt(ev, pk, a)
  }

  ghost predicate RankAt(ev: Evidence, a: Addr, ranks: nat -> Quality, k: nat) {
    ranks(k) == Rank(ev, a, k)
  }

  /** Decode one candidate; only one that lands exactly on `a` is of any use to the walk. */
  method Candidate(ev: Evidence, a: Addr, backoff: Span, anchorStatus: Byte, ghost ranks: nat -> Quality)
    returns (cand: Pick, onSpan: bool)
    requires anchorStatus == ev.RecordedStatus(a, ev.regStatus)
    requires forall k: nat {:trigger RankAt(ev, a, ranks, k)} :: RankAt(ev, a, ranks, k)
    ensures cand.size != backoff ==> ranks(backoff) == 0
    ensures cand.size == backoff ==> cand == PickAt(ev, a, backoff)
    ensures cand.size == backoff ==> ranks(backoff) == if cand.recorded then 3 else if onSpan then 2 else 1
  {
    assert RankAt(ev, a, ranks, backoff);
    var p := Prior(a, backoff);
    var recorded := ev.believed(p);
    var st := if recorded then ev.anchorStatus(p) else anchorStatus;
    cand, onSpan := Pick(p, st, ev.Decode(p, st), recorded), ev.spanStart(p);
  }

  /** A running best: the nearest candidate of rank `r` or better below `upto`, if one was met. */
  ghost predicate Held(ev: Evidence, a: Addr, ranks: nat -> Quality, r: nat, upto: nat, has: bool, best: Pick)
    requires 1 <= upto
  {
    var n := Nearest(ranks, r, 1);
    if has then 0 < n < upto && best == PickAt(ev, a, n) else n == Nearest(ranks, r, upto)
  }

  lemma HeldStep(ev: Evidence, a: Addr, ranks: nat -> Quality, r: nat, b: Span, has: bool, best: Pick, cand: Pick)
    requires Held(ev, a, ranks, r, b, has, best)
    requires ranks(b) >= r ==> cand == PickAt(ev, a, b)
    ensures Held(ev, a, ranks, r, b + 1, has || ranks(b) >= r, if !has && ranks(b) >= r then cand else best)
  {
  }

  /** The nearest candidate of each kind, met in order of distance; the best kind wins. */
  method NearestOfEachKind(ev: Evidence, a: Addr, anchorStatus: Byte, ghost ranks: nat -> Quality) returns (out: Pick)
    requires anchorStatus == ev.RecordedStatus(a, ev.regStatus)
    requires forall k: nat {:trigger RankAt(ev, a, ranks, k)} :: RankAt(ev, a, ranks, k)
    ensures var k := BestBackoff(ranks);
            out == if k > 0 then PickAt(ev, a, k) else Pick(Prior(a, 1), anchorStatus, 1, false)
  {
    var none := Pick(0, 0, 1, false);
    var bestRecorded, bestSpan, bestSync := none, none, none;
    var hasRecorded, hasSpan, hasSync := false, false, false;
    for backoff := 1 to MAX_INSN_LEN + 1
      invariant Held(ev, a, ranks, 3, backoff, hasRecorded, bestRecorded)
      invariant !hasRecorded ==> Held(ev, a, ranks, 2, backoff, hasSpan, bestSpan)
      invariant Held(ev, a, ranks, 1, backoff, hasSync, bestSync)
    {
      var cand, onSpan := Candidate(ev, a, backoff, anchorStatus, ranks);
      HeldStep(ev, a, ranks, 3, backoff, hasRecorded, bestRecorded, cand);
      HeldStep(ev, a, ranks, 1, backoff, hasSync, bestSync, cand);
      if !hasRecorded {
        HeldStep(ev, a, ranks, 2, backoff, hasSpan, bestSpan, cand);
      }
      if cand.size != backoff {
        continue;
      }
      if !hasRecorded && cand.recorded {
        bestRecorded, hasRecorded := cand, true;
      }
      if !hasSpan && onSpan {
        bestSpan, hasSpan := cand, true;
      }
      if !hasSync {
        bestSync, hasSync := cand, true;
      }
    }
    if hasRecorded {
      return bestRecorded;
    }
    if hasSpan {
      return bestSpan;
    }
    if hasSync {
      return bestSync;
    }
    out := Pick(Prior(a, 1), anchorStatus, 1, false);
  }

  method PrevAnchor(ev: Evidence, a: Addr, ghost pk: Picker) returns (out: Pick)
    requires Picks(ev, pk)
    ensures out == pk(a)
  {
    assert PicksAt(ev, pk, a);
    out := NearestOfEachKind(ev, a, ev.RecordedStatus(a, ev.regStatus), Ranks(ev, a));
  }

  // ---- The window -------------------------------------------------------------

  function ClampBefore(linesBefore: int): nat {
    if linesBefore < 0 then 0 else if linesBefore > MAX_BEFORE then MAX_BEFORE else linesBefore
  }

  function ClampAfter(linesAfter: int): nat {
    if linesAfter < 1 then 1 else linesAfter
  }

  /** Slots for rows in front of the centre: one is always held back for the centre itself. */
  function BackCapacity(maxOut: nat): nat {
    if maxOut > 1 then maxOut - 1 else 0
  }

  /** One row emitted into slot `at`, after the rows from `from` on. */
  method EmitInto(ev: Evidence, a: Addr, runStatus: Byte, runE: bool, room: nat, out: array<Row>, from: nat, at: nat,
                  ghost em: Emitter)
    returns (row: Row, nextStatus: Byte, nextE: bool)
    requires Emits(ev, em) && from <= at < out.Length
    modifies out
    ensures Emitted(row, nextStatus, nextE) == em(a, runStatus, runE, room)
    ensures out[from..at+1] == old(out[from..at]) + [row] && out[at] == row
    ensures out[..from] == old(out[..from])
  {
    row, nextStatus, nextE := Emit(ev, a, runStatus, runE, room, em);
    out[at] := row;
  }

  /** One row of an instruction's tile; it closes the group, or leaves `left'` bytes to the limit. */
  method TileRow(ev: Evidence, a: Addr, runStatus: Byte, runE: bool, limit: Addr, tile: array<Row>, k: nat,
                 ghost left: nat, ghost whole: seq<Row>, ghost em: Emitter)
    returns (closed: bool, a': Addr, st': Byte, e': bool, ghost left': nat)
    requires Emits(ev, em) && Bounded(em) && tile.Length == MAX_INSN_LEN
    requires 0 < left && k + left <= MAX_INSN_LEN && a == Prior(limit, left)
    requires whole == GroupOnto(tile[0..k], em, a, left, runStatus, runE)
    modifies tile
    ensures closed ==> tile[0..k+1] == whole
    ensures !closed ==> 0 < left' < left && a' == Prior(limit, left')
                        && whole == GroupOnto(tile[0..k+1], em, a', left', st', e')
  {
    GapToPrior(limit, left);
    var room := Gap(a, limit);
    var row;
    row, st', e' := EmitInto(ev, a, runStatus, runE, room, tile, 0, k, em);
    closed, a', left' := row.size >= room, a, left;
    if !closed {
      Approach(limit, left, row.size);
      a', left' := After(a, row.size), left - row.size;
    }
  }

  /** Tile one resolved instruction into the four-slot scratch buffer; it always closes. */
  method TileGroup(ev: Evidence, start: Pick, limit: Addr, tile: array<Row>, ghost em: Emitter)
    returns (k: nat, closed: bool)
    requires Emits(ev, em) && Bounded(em)
    requires tile.Length == MAX_INSN_LEN
    requires start.addr == Prior(limit, start.size)
    modifies tile
    ensures closed && k <= MAX_INSN_LEN
    ensures tile[..k] == Group(em, start.addr, start.size, start.status, ev.regE)
  {
    var a: Addr := start.addr;
    var runStatus, runE := start.status, ev.regE;
    k, closed := 0, false;
    ghost var left: nat := start.size;
    ghost var whole := GroupOnto([], em, start.addr, start.size, start.status, ev.regE);
    while k < MAX_INSN_LEN && !closed
      invariant k <= MAX_INSN_LEN
      invariant closed ==> tile[0..k] == whole
      invariant !closed ==> 0 < left && k + left <= MAX_INSN_LEN && a == Prior(limit, left)
                            && whole == GroupOnto(tile[0..k], em, a, left, runStatus, runE)
      decreases MAX_INSN_LEN - k
    {
      closed, a, runStatus, runE, left := TileRow(ev, a, runStatus, runE, limit, tile, k, left, whole, em);
      k := k + 1;
    }
    GroupOntoIs([], em, start.addr, start.size, start.status, ev.regE);
    assert tile[..k] == tile[0..k];
  }

  /** One decision of the walk; it always moves. */
  method Decide(ev: Evidence, a: Addr, ghost pk: Picker) returns (an: Pick)
    requires Picks(ev, pk) && EndsThere(pk)
    ensures an == pk(a) && an.addr != a
  {
    an := PrevAnchor(ev, a, pk);
    GapToPrior(a, an.size);
  }

  lemma WalkNext(pk: Picker, center: Addr, i: nat)
    ensures Walk(pk, center, i + 1) == Walk(pk, center, i) + [pk(Boundary(pk, center, i))]
    ensures Boundary(pk, center, i + 1) == pk(Boundary(pk, center, i)).addr
  {
  }

  /** Phase A: the decisions of the walk, nearest first; the way out for one that does not move is never taken. */
  method WalkBack(ev: Evidence, center: Addr, nbefore: nat, before: array<Pick>, ghost pk: Picker)
    returns (collected: nat)
    requires Picks(ev, pk) && EndsThere(pk)
    requires nbefore <= before.Length
    modifies before
    ensures collected == nbefore
    ensures before[..collected] == Walk(pk, center, nbefore)
  {
    collected := 0;
    var a: Addr := center;
    while collected < nbefore
      invariant collected <= nbefore && a == Boundary(pk, center, collected)
      invariant before[..collected] == Walk(pk, center, collected)
    {
      var an := Decide(ev, a, pk);
      if an.addr == a {
        break;
      }
      WalkNext(pk, center, collected);
      before[collected] := an;
      collected := collected + 1;
      a := an.addr;
    }
  }

  /** Copy `k` rows into place in front of the rows up to `hi`. */
  method Place(tile: array<Row>, from: nat, k: nat, out: array<Row>, at: nat, hi: nat)
    requires tile != out && from + k <= tile.Length && at + k <= hi <= out.Length
    modifies out
    ensures out[at..hi] == tile[from..from+k] + old(out[at+k..hi])
  {
    forall j | 0 <= j < k {
      out[at + j] := tile[from + j];
    }
  }

  /** Tile one instruction and put what fits of it right before the rows already placed. */
  method PlaceGroup(ev: Evidence, start: Pick, limit: Addr, tile: array<Row>, out: array<Row>, write: nat, bCap: nat,
                    ghost em: Emitter) returns (closed: bool, at: nat)
    requires Emits(ev, em) && Bounded(em)
    requires start.addr == Prior(limit, start.size)
    requires tile != out && tile.Length == MAX_INSN_LEN && 0 < write <= bCap <= out.Length
    modifies tile, out
    ensures closed && at <= write
    ensures out[at..bCap]
            == Suffix(Group(em, start.addr, start.size, start.status, ev.regE), write) + old(out[write..bCap])
  {
    var k;
    k, closed := TileGroup(ev, start, limit, tile, em);
    ghost var group := tile[..k];
    var from := 0;
    if k > write {
      from := k - write;
      k := write;
    }
    assert tile[from..from+k] == Suffix(group, write) by { SliceIsSuffix(tile[..], |group|, write); }
    at := write - k;
    Place(tile, from, k, out, at, bCap);
  }

  lemma SliceIsSuffix<T>(s: seq<T>, k: nat, n: nat)
    requires k <= |s|
    ensures Suffix(s[..k], n) == if k > n then s[k-n..k] else s[..k]
  {
    SuffixIs(s[..k], n);
  }

  /** Place the `i`-th instruction back in front of the nearer ones. */
  method PlaceNth(ev: Evidence, center: Addr, before: array<Pick>, collected: nat, i: nat,
                  tile: array<Row>, out: array<Row>, write: nat, bCap: nat, ghost em: Emitter, ghost pk: Picker,
                  ghost gr: nat -> seq<Row>) returns (closed: bool, at: nat)
    requires Emits(ev, em) && Bounded(em) && EndsThere(pk) && Grouped(em, pk, ev.regE, center, gr)
    requires i < collected <= before.Length && before[..collected] == Walk(pk, center, collected)
    requires tile != out && tile.Length == MAX_INSN_LEN && 0 < write <= bCap <= out.Length
    requires out[write..bCap] == Placed(gr, i, bCap)
    modifies tile, out
    ensures closed && at <= write
    ensures out[at..bCap] == Placed(gr, i + 1, bCap)
  {
    var limit := LimitOf(before, center, i, collected, pk);
    assert GroupAt(em, pk, ev.regE, center, gr, i);
    closed, at := PlaceGroup(ev, before[i], limit, tile, out, write, bCap, em);
  }

  /** Phase B: the tiled groups, nearest first, placed backwards from the end of the region. */
  method TileBack(ev: Evidence, center: Addr, before: array<Pick>, collected: nat, out: array<Row>, bCap: nat,
                  tile: array<Row>, ghost em: Emitter, ghost pk: Picker, ghost gr: nat -> seq<Row>) returns (write: nat)
    requires Emits(ev, em) && Bounded(em) && EndsThere(pk) && Grouped(em, pk, ev.regE, center, gr)
    requires collected <= before.Length && before[..collected] == Walk(pk, center, collected)
    requires bCap <= out.Length && tile != out && tile.Length == MAX_INSN_LEN
    modifies out, tile
    ensures write <= bCap
    ensures out[write..bCap] == Placed(gr, collected, bCap)
  {
    write := bCap;
    var i := 0;
    while i < collected && write > 0
      invariant i <= collected && write <= bCap
      invariant out[write..bCap] == Placed(gr, i, bCap)
    {
      var closed, at := PlaceNth(ev, center, before, collected, i, tile, out, write, bCap, em, pk, gr);
      if !closed {
        break;
      }
      write := at;
      i := i + 1;
    }
    if i < collected {
      PlacedFull(gr, i, collected, bCap);
    }
  }

  /** The boundary an instruction must be tiled up to: where the next one nearer the centre starts. */
  method LimitOf(before: array<Pick>, center: Addr, i: nat, collected: nat, ghost pk: Picker) returns (limit: Addr)
    requires i < collected <= before.Length && before[..collected] == Walk(pk, center, collected)
    ensures limit == Boundary(pk, center, i) && before[i] == pk(limit)
  {
    WalkAt(pk, center, collected, i);
    assert before[..collected][i] == before[i];
    if i > 0 {
      WalkAt(pk, center, collected, i - 1);
      assert before[..collected][i-1] == before[i-1];
    }
    limit := if i > 0 then before[i-1].addr else center;
  }

  /** One row of a forward run, of which `left` more are to follow. */
  method ForwardRow(ev: Evidence, a: Addr, runStatus: Byte, runE: bool, out: array<Row>, n0: nat, n: nat,
                    ghost start: Addr, ghost left: nat, ghost whole: seq<Row>, ghost em: Emitter)
    returns (a': Addr, st': Byte, e': bool)
    requires Emits(ev, em) && Bounded(em) && n0 + n < out.Length
    requires whole == ForwardOnto(out[n0..n0+n], em, a, runStatus, runE, left + 1)
    modifies out
    ensures out[..n0] == old(out[..n0])
    ensures whole == ForwardOnto(out[n0..n0+n+1], em, a', st', e', left)
    ensures a' == EndOf(out[n0..n0+n+1], start)
  {
    var row;
    row, st', e' := EmitInto(ev, a, runStatus, runE, 0, out, n0, n0 + n, em);
    a' := After(a, row.size);
  }

  /** Phase C: rows forwards from `addr` into the slots from `n` on. */
  method EmitForward(ev: Evidence, start: Addr, st: Byte, count: nat, out: array<Row>, n0: nat, ghost em: Emitter)
    returns (next: Addr)
    requires Emits(ev, em) && Bounded(em) && n0 + count <= out.Length
    modifies out
    ensures out[n0..n0+count] == Forward(em, start, st, ev.regE, count)
    ensures out[..n0] == old(out[..n0])
    ensures next == EndOf(Forward(em, start, st, ev.regE, count), start)
  {
    next := start;
    var runStatus, runE := st, ev.regE;
    var n := 0;
    ghost var left := count;
    ghost var whole := ForwardOnto([], em, start, st, ev.regE, count);
    assert out[n0..n0+n] == [];
    while n < count
      invariant n + left == count && out[..n0] == old(out[..n0])
      invariant next == EndOf(out[n0..n0+n], start)
      invariant whole == ForwardOnto(out[n0..n0+n], em, next, runStatus, runE, left)
    {
      left := left - 1;
      next, runStatus, runE := ForwardRow(ev, next, runStatus, runE, out, n0, n, start, left, whole, em);
      n := n + 1;
    }
    ForwardOntoIs([], em, start, st, ev.regE, count);
  }

  // ---- What the caller gets ---------------------------------------------------

  function GroupsBefore(ev: Evidence, center: Addr): nat -> seq<Row> {
    Groups(RowEmitter(ev), WalkPicker(ev), ev.regE, center)
  }

  /** `count` rows from `start` on. */
  function From(ev: Evidence, start: Addr, count: nat): seq<Row> {
    Forward(RowEmitter(ev), start, ev.RecordedStatus(start, ev.regStatus), ev.regE, count)
  }

  /** How many rows from the centre on are asked for and still fit. */
  function FrontCount(linesAfter: int, room: nat): nat {
    if ClampAfter(linesAfter) < room then ClampAfter(linesAfter) else room
  }

  /** The rows three phases build from an emitter and groups: what fits of the groups, then a forward run. */
  function Built(em: Emitter, gr: nat -> seq<Row>, center: Addr, st: Byte, e: bool,
                 linesBefore: int, linesAfter: int, cap: nat): seq<Row>
    requires 0 < cap
  {
    var back := Placed(gr, ClampBefore(linesBefore), BackCapacity(cap));
    back + Forward(em, center, st, e, FrontCount(linesAfter, cap - |back|))
  }

  /** The rows kept in front of the centre. */
  function Back(ev: Evidence, center: Addr, linesBefore: int, cap: nat): seq<Row> {
    Placed(GroupsBefore(ev, center), ClampBefore(linesBefore), BackCapacity(cap))
  }

  /** The window the caller gets. */
  function Window(ev: Evidence, center: Addr, linesBefore: int, linesAfter: int, cap: nat): seq<Row>
    requires 0 < cap
  {
    Built(RowEmitter(ev), GroupsBefore(ev, center), center, ev.RecordedStatus(center, ev.regStatus), ev.regE,
          linesBefore, linesAfter, cap)
  }

  lemma EmitterSound(ev: Evidence)
    ensures Emits(ev, RowEmitter(ev)) && Bounded(RowEmitter(ev))
  {
    var em := RowEmitter(ev);
    forall a: Addr, st: Byte, e: bool, room: nat
      ensures EmitsAt(ev, em, a, st, e, room)
    {
    }
  }

  lemma PickerSound(ev: Evidence)
    ensures Picks(ev, WalkPicker(ev)) && EndsThere(WalkPicker(ev))
  {
  }

  lemma GroupsSound(ev: Evidence, center: Addr)
    ensures Grouped(RowEmitter(ev), WalkPicker(ev), ev.regE, center, GroupsBefore(ev, center))
  {
  }

  /** The machine's own emitter, picks and groups, known only by what the window makes of them. */
  lemma Parts(ev: Evidence, center: Addr, linesBefore: int, linesAfter: int, cap: nat)
    returns (em: Emitter, pk: Picker, gr: nat -> seq<Row>)
    requires 0 < cap
    ensures Emits(ev, em) && Bounded(em) && Picks(ev, pk) && EndsThere(pk) && Grouped(em, pk, ev.regE, center, gr)
    ensures Window(ev, center, linesBefore, linesAfter, cap)
            == Built(em, gr, center, ev.RecordedStatus(center, ev.regStatus), ev.regE, linesBefore, linesAfter, cap)
    ensures Back(ev, center, linesBefore, cap) == Placed(gr, ClampBefore(linesBefore), BackCapacity(cap))
  {
    em, pk, gr := RowEmitter(ev), WalkPicker(ev), GroupsBefore(ev, center);
    EmitterSound(ev);
    PickerSound(ev);
    GroupsSound(ev, center);
  }

  /** Slide the placed rows down to the start of the buffer. */
  method SlideDown(out: array<Row>, write: nat, hi: nat)
    requires write <= hi <= out.Length
    modifies out
    ensures out[..hi - write] == old(out[write..hi])
  {
    forall j | 0 <= j < hi - write {
      out[j] := out[write + j];
    }
  }

  /** Phases A and B: resolve `nbefore` instructions back and tile them, nearest first. */
  method TileBefore(ev: Evidence, center: Addr, nbefore: nat, out: array<Row>,
                    ghost em: Emitter, ghost pk: Picker, ghost gr: nat -> seq<Row>) returns (n: nat)
    requires Emits(ev, em) && Bounded(em) && Picks(ev, pk) && EndsThere(pk) && Grouped(em, pk, ev.regE, center, gr)
    requires nbefore <= MAX_BEFORE && 0 < out.Length
    modifies out
    ensures n < out.Length && out[..n] == Placed(gr, nbefore, BackCapacity(out.Length))
  {
    var before := new Pick[MAX_BEFORE](_ => Pick(0, 0, 1, false));
    var collected := WalkBack(ev, center, nbefore, before, pk);
    var tile := new Row[MAX_INSN_LEN](_ => Row(0, 1, 0, -1, false, Data, false, []));
    var bCap := BackCapacity(out.Length);
    var write := TileBack(ev, center, before, collected, out, bCap, tile, em, pk, gr);
    n := bCap - write;
    SlideDown(out, write, bCap);
  }

  /** Phase C after the first two: rows forwards behind what is already there. */
  method EmitBehind(ev: Evidence, start: Addr, st: Byte, count: nat, out: array<Row>, at: nat, ghost em: Emitter)
    requires Emits(ev, em) && Bounded(em) && at + count <= out.Length
    modifies out
    ensures out[..at+count] == old(out[..at]) + Forward(em, start, st, ev.regE, count)
  {
    var next := EmitForward(ev, start, st, count, out, at, em);
    assert out[..at+count] == out[..at] + out[at..at+count];
  }

  /** All three phases, the centre row always included. */
  method WindowInto(ev: Evidence, center: Addr, linesBefore: int, linesAfter: int, out: array<Row>,
                    ghost em: Emitter, ghost pk: Picker, ghost gr: nat -> seq<Row>) returns (n: nat, centerIndex: nat)
    requires Emits(ev, em) && Bounded(em) && Picks(ev, pk) && EndsThere(pk) && Grouped(em, pk, ev.regE, center, gr)
    requires 0 < out.Length
    modifies out
    ensures centerIndex == |Placed(gr, ClampBefore(linesBefore), BackCapacity(out.Length))| < n <= out.Length
    ensures out[..n] == Built(em, gr, center, ev.RecordedStatus(center, ev.regStatus), ev.regE,
                              linesBefore, linesAfter, out.Length)
  {
    var nbefore := ClampBefore(linesBefore);
    centerIndex := TileBefore(ev, center, nbefore, out, em, pk, gr);
    var count := FrontCount(linesAfter, out.Length - centerIndex);
    EmitBehind(ev, center, ev.RecordedStatus(center, ev.regStatus), count, out, centerIndex, em);
    n := centerIndex + count;
  }

  /** The window: at most `out.Length` rows tiled around `center`, and where the centre row is. */
  method DisasmWindow(ev: Evidence, center: Addr, linesBefore: int, linesAfter: int, out: array?<Row>)
    returns (n: nat, centerIndex: int)
    modifies out
    ensures out == null || out.Length == 0 ==> n == 0 && centerIndex == -1
    ensures out != null && out.Length > 0 ==>
              && n <= out.Length
              && out[..n] == Window(ev, center, linesBefore, linesAfter, out.Length)
              && centerIndex == |Back(ev, center, linesBefore, out.Length)|
  {
    centerIndex := -1;
    if out == null || out.Length == 0 {
      return 0, centerIndex;
    }
    ghost var em, pk, gr := Parts(ev, center, linesBefore, linesAfter, out.Length);
    n, centerIndex := WindowInto(ev, center, linesBefore, linesAfter, out, em, pk, gr);
  }

  /** A plain run of rows, and the address just past it. */
  method DisasmForward(ev: Evidence, start: Addr, count: int, out: array?<Row>) returns (n: nat, next: Addr)
    modifies out
    ensures out == null ==> n == 0
    ensures out != null ==>
              && n == (if count < 0 then 0 else if count > out.Length then out.Length else count)
              && out[..n] == From(ev, start, n)
    ensures next == EndOf(From(ev, start, n), start)
  {
    if out == null || out.Length == 0 {
      return 0, start;
    }
    n := if count > out.Length then out.Length else if count < 0 then 0 else count;
    EmitterSound(ev);
    next := EmitForward(ev, start, ev.RecordedStatus(start, ev.regStatus), n, out, 0, RowEmitter(ev));
    assert out[..n] == out[0..0+n];
  }
}
