/**
 Runs of rows, whatever emits them: forwards from an address, up to a boundary, and
 around a centre. Nothing here depends on how a row is decoded or a boundary chosen.
 */
module CodeMapTiling {
  import opened Machine
  import opened CodeMapEvidence
  import opened CodeMapRows

  /** One decision of the backward walk: an instruction ending where the walk stood. */
  datatype Pick = Pick(addr: Addr, status: Byte, size: Span, recorded: bool)

  type Picker = Addr -> Pick

  /** Rows start where they are asked to and respect the room they are given. */
  ghost predicate Bounded(em: Emitter) {
    forall a: Addr, st: Byte, e: bool, room: nat {:trigger em(a, st, e, room)} ::
      em(a, st, e, room).row.addr == a && (room > 0 ==> em(a, st, e, room).row.size <= room)
  }

  /** A pick ends exactly where the walk stood. */
  ghost predicate EndsThere(pk: Picker) {
    forall a: Addr {:trigger pk(a)} :: pk(a).addr == Prior(a, pk(a).size)
  }

  // ---- Tilings ----------------------------------------------------------------

  /** The address just past a row. */
  function Past(row: Row): Addr {
    After(row.addr, row.size)
  }

  /** Every row starts where the one before it ended. */
  ghost predicate Tiles(rows: seq<Row>) {
    forall i :: 0 < i < |rows| ==> rows[i].addr == Past(rows[i-1])
  }

  /** The address just past a run of rows that starts at `start`. */
  function EndOf(rows: seq<Row>, start: Addr): Addr {
    if rows == [] then start else Past(rows[|rows|-1])
  }

  function Bytes(rows: seq<Row>): nat {
    if rows == [] then 0 else rows[0].size + Bytes(rows[1..])
  }

  /** A run of rows that covers exactly the `room` bytes at `a`, in no more rows than bytes. */
  ghost predicate Covers(rows: seq<Row>, a: Addr, room: nat) {
    && 1 <= |rows| <= room == Bytes(rows)
    && rows[0].addr == a && EndOf(rows, a) == After(a, room) && Tiles(rows)
  }

  /** Tilings that meet can be joined. */
  lemma TilesJoin(a: seq<Row>, b: seq<Row>)
    requires Tiles(a) && Tiles(b)
    requires a != [] && b != [] ==> b[0].addr == EndOf(a, 0)
    ensures Tiles(a + b)
  {
    var c := a + b;
    forall i | 0 < i < |c|
      ensures c[i].addr == Past(c[i-1])
    {
      if i < |a| {
        assert c[i] == a[i] && c[i-1] == a[i-1];
      } else if i > |a| {
        assert c[i] == b[i-|a|] && c[i-1] == b[i-|a|-1];
      }
    }
  }

  lemma CoversOne(row: Row)
    ensures Covers([row], row.addr, row.size)
  {
    assert [row][1..] == [];
  }

  lemma CoversMore(row: Row, rest: seq<Row>, room: nat)
    requires row.size < room
    requires Covers(rest, Past(row), room - row.size)
    ensures Covers([row] + rest, row.addr, room)
  {
    assert ([row] + rest)[1..] == rest;
    TilesJoin([row], rest);
    AfterAfter(row.addr, row.size, room - row.size);
  }

  // ---- Forward runs -----------------------------------------------------------

  /** `n` rows forwards from `a`. */
  function Forward(em: Emitter, a: Addr, st: Byte, e: bool, n: nat): (rows: seq<Row>)
    ensures |rows| == n
    decreases n
  {
    if n == 0 then []
    else
      var x := em(a, st, e, 0);
      [x.row] + Forward(em, Past(x.row), x.status, x.e, n - 1)
  }

  lemma {:induction false} ForwardTiles(em: Emitter, a: Addr, st: Byte, e: bool, n: nat)
    requires Bounded(em)
    ensures var rows := Forward(em, a, st, e, n);
            Tiles(rows) && (n > 0 ==> rows[0].addr == a)
    decreases n
  {
    if n > 0 {
      var x := em(a, st, e, 0);
      ForwardTiles(em, Past(x.row), x.status, x.e, n - 1);
      TilesJoin([x.row], Forward(em, Past(x.row), x.status, x.e, n - 1));
    }
  }

  /** A longer run only adds rows at the end. */
  lemma {:induction false} ForwardPrefix(em: Emitter, a: Addr, st: Byte, e: bool, m: nat, n: nat)
    requires m <= n
    ensures Forward(em, a, st, e, m) == Forward(em, a, st, e, n)[..m]
    decreases n
  {
    if m > 0 {
      var x := em(a, st, e, 0);
      ForwardPrefix(em, Past(x.row), x.status, x.e, m - 1, n - 1);
    }
  }

  /** The run with the rows already emitted carried along, as the loops build it. */
  function ForwardOnto(done: seq<Row>, em: Emitter, a: Addr, st: Byte, e: bool, n: nat): seq<Row>
    decreases n
  {
    if n == 0 then done
    else
      var x := em(a, st, e, 0);
      ForwardOnto(done + [x.row], em, Past(x.row), x.status, x.e, n - 1)
  }

  lemma {:induction false} ForwardOntoIs(done: seq<Row>, em: Emitter, a: Addr, st: Byte, e: bool, n: nat)
    ensures ForwardOnto(done, em, a, st, e, n) == done + Forward(em, a, st, e, n)
    decreases n
  {
    if n > 0 {
      var x := em(a, st, e, 0);
      ForwardOntoIs(done + [x.row], em, Past(x.row), x.status, x.e, n - 1);
      JoinAssociates(done, [x.row], Forward(em, Past(x.row), x.status, x.e, n - 1));
    }
  }

  lemma JoinAssociates<T>(a: seq<T>, b: seq<T>, c: seq<T>)
    ensures (a + b) + c == a + (b + c)
  {
  }

  // ---- Up to a boundary -------------------------------------------------------

  /** The rows that cover exactly the `room` bytes at `a`, each cut at the far boundary. */
  function Group(em: Emitter, a: Addr, room: nat, st: Byte, e: bool): (rows: seq<Row>)
    decreases room
  {
    var x := em(a, st, e, room);
    if x.row.size >= room then [x.row]
    else [x.row] + Group(em, Past(x.row), room - x.row.size, x.status, x.e)
  }

  /** The group with the rows already emitted carried along. */
  function GroupOnto(done: seq<Row>, em: Emitter, a: Addr, room: nat, st: Byte, e: bool): seq<Row>
    decreases room
  {
    var x := em(a, st, e, room);
    if x.row.size >= room then done + [x.row]
    else GroupOnto(done + [x.row], em, Past(x.row), room - x.row.size, x.status, x.e)
  }

  lemma {:induction false} GroupOntoIs(done: seq<Row>, em: Emitter, a: Addr, room: nat, st: Byte, e: bool)
    ensures GroupOnto(done, em, a, room, st, e) == done + Group(em, a, room, st, e)
    decreases room
  {
    var x := em(a, st, e, room);
    if x.row.size < room {
      GroupOntoIs(done + [x.row], em, Past(x.row), room - x.row.size, x.status, x.e);
      JoinAssociates(done, [x.row], Group(em, Past(x.row), room - x.row.size, x.status, x.e));
    }
  }

  lemma {:induction false} GroupCloses(em: Emitter, a: Addr, room: nat, st: Byte, e: bool)
    requires Bounded(em) && 0 < room
    ensures Covers(Group(em, a, room, st, e), a, room)
    decreases room
  {
    var x := em(a, st, e, room);
    if x.row.size < room {
      GroupCloses(em, Past(x.row), room - x.row.size, x.status, x.e);
      CoversMore(x.row, Group(em, Past(x.row), room - x.row.size, x.status, x.e), room);
    } else {
      CoversOne(x.row);
    }
  }

  // ---- Around a centre --------------------------------------------------------

  /** The boundary reached after walking back over `n` instructions. */
  function Boundary(pk: Picker, center: Addr, n: nat): Addr {
    if n == 0 then center else pk(Boundary(pk, center, n - 1)).addr
  }

  /** The decisions of a walk over `n` instructions, nearest first. */
  function Walk(pk: Picker, center: Addr, n: nat): (picks: seq<Pick>)
    ensures |picks| == n
  {
    if n == 0 then [] else Walk(pk, center, n - 1) + [pk(Boundary(pk, center, n - 1))]
  }

  lemma {:induction false} WalkAt(pk: Picker, center: Addr, n: nat, i: nat)
    requires i < n
    ensures Walk(pk, center, n)[i] == pk(Boundary(pk, center, i))
    decreases n
  {
    if i < n - 1 {
      WalkAt(pk, center, n - 1, i);
    }
  }

  /** The rows that tile the instruction picked before `limit`. */
  function GroupBefore(em: Emitter, pk: Picker, e: bool, limit: Addr): seq<Row> {
    Group(em, pk(limit).addr, pk(limit).size, pk(limit).status, e)
  }

  /** The groups before `center` by distance: the one nearest it is number 0. */
  function Groups(em: Emitter, pk: Picker, e: bool, center: Addr): nat -> seq<Row> {
    (i: nat) => GroupBefore(em, pk, e, Boundary(pk, center, i))
  }

  ghost predicate GroupAt(em: Emitter, pk: Picker, e: bool, center: Addr, gr: nat -> seq<Row>, i: nat) {
    gr(i) == GroupBefore(em, pk, e, Boundary(pk, center, i))
  }

  /** `gr` yields exactly the groups before `center`. */
  ghost predicate Grouped(em: Emitter, pk: Picker, e: bool, center: Addr, gr: nat -> seq<Row>) {
    forall i: nat {:trigger GroupAt(em, pk, e, center, gr, i)} :: GroupAt(em, pk, e, center, gr, i)
  }

  /** The whole tiling of the `n` instructions before the centre, low to high. */
  function Before(gr: nat -> seq<Row>, n: nat): seq<Row> {
    if n == 0 then [] else gr(n - 1) + Before(gr, n - 1)
  }

  /** The last `n` elements, or all of them. */
  function Suffix<T>(s: seq<T>, n: nat): (r: seq<T>)
    ensures |r| == if |s| <= n then |s| else n
  {
    if |s| <= n then s else Suffix(s[1..], n)
  }

  lemma {:induction false} SuffixIs<T>(s: seq<T>, n: nat)
    ensures Suffix(s, n) == if |s| <= n then s else s[|s|-n..]
  {
    if |s| > n {
      SuffixIs(s[1..], n);
    }
  }

  /** A tiling of one to `most` rows from `a` exactly to `b`. */
  ghost predicate Spans(rows: seq<Row>, a: Addr, b: Addr, least: nat, most: nat) {
    && 0 < least <= |rows| <= most
    && rows[0].addr == a && Past(rows[|rows|-1]) == b && Tiles(rows)
  }

  lemma SpansJoin(far: seq<Row>, near: seq<Row>, a: Addr, b: Addr, c: Addr, l: nat, m: nat, l': nat, m': nat)
    requires Spans(far, a, b, l, m) && Spans(near, b, c, l', m')
    ensures Spans(far + near, a, c, l + l', m + m')
  {
    TilesJoin(far, near);
  }

  lemma GroupBeforeSpans(em: Emitter, pk: Picker, e: bool, limit: Addr)
    requires Bounded(em) && EndsThere(pk)
    ensures Spans(GroupBefore(em, pk, e, limit), pk(limit).addr, limit, 1, MAX_INSN_LEN)
  {
    var p := pk(limit);
    GroupCloses(em, p.addr, p.size, p.status, e);
    AfterPrior(limit, p.size);
  }

  /** The tiling before the centre ends exactly on it, and gives every instruction at least one row. */
  lemma {:induction false} BeforeSpans(em: Emitter, pk: Picker, e: bool, center: Addr, gr: nat -> seq<Row>, n: nat)
    requires Bounded(em) && EndsThere(pk) && Grouped(em, pk, e, center, gr) && 0 < n
    ensures Spans(Before(gr, n), Boundary(pk, center, n), center, n, MAX_INSN_LEN * n)
  {
    var limit := Boundary(pk, center, n - 1);
    assert GroupAt(em, pk, e, center, gr, n - 1);
    GroupBeforeSpans(em, pk, e, limit);
    if n == 1 {
      assert gr(0) + [] == gr(0);
    } else {
      BeforeSpans(em, pk, e, center, gr, n - 1);
      SpansJoin(gr(n - 1), Before(gr, n - 1), pk(limit).addr, limit, center, 1, MAX_INSN_LEN,
                n - 1, MAX_INSN_LEN * (n - 1));
    }
  }

  /** A further group is cut to the part nearest the centre. */
  lemma SuffixGrows<T>(group: seq<T>, near: seq<T>, n: nat)
    ensures Suffix(group + near, n) == Suffix(group, n - |Suffix(near, n)|) + Suffix(near, n)
  {
    SuffixIs(group + near, n);
    SuffixIs(near, n);
    SuffixIs(group, n - |Suffix(near, n)|);
  }

  lemma SuffixTiles(rows: seq<Row>, n: nat)
    requires Tiles(rows)
    ensures var r := Suffix(rows, n);
            Tiles(r) && (r != [] ==> Past(r[|r|-1]) == Past(rows[|rows|-1]))
  {
    SuffixIs(rows, n);
  }

  /** What a region of `cap` slots holds once `n` groups were placed in it, nearest first. */
  function Placed(gr: nat -> seq<Row>, n: nat, cap: nat): (rows: seq<Row>)
    ensures |rows| <= cap
  {
    if n == 0 then []
    else
      var near := Placed(gr, n - 1, cap);
      Suffix(gr(n - 1), cap - |near|) + near
  }

  /** Placing group by group keeps exactly the end of the whole tiling. */
  lemma {:induction false} PlacedIsSuffix(gr: nat -> seq<Row>, n: nat, cap: nat)
    ensures Placed(gr, n, cap) == Suffix(Before(gr, n), cap)
  {
    if n > 0 {
      PlacedIsSuffix(gr, n - 1, cap);
      SuffixGrows(gr(n - 1), Before(gr, n - 1), cap);
    }
  }

  /** A full region stays as it is. */
  lemma {:induction false} PlacedFull(gr: nat -> seq<Row>, m: nat, n: nat, cap: nat)
    requires m <= n && |Placed(gr, m, cap)| == cap
    ensures Placed(gr, n, cap) == Placed(gr, m, cap)
    decreases n
  {
    if m < n {
      PlacedFull(gr, m, n - 1, cap);
    }
  }

  // ---- Properties every row has -------------------------------------------------

  ghost predicate All(rows: seq<Row>, p: Row -> bool) {
    forall row :: row in rows ==> p(row)
  }

  /** Whatever is asked of it, the emitter yields a row with the property. */
  ghost predicate Yields(em: Emitter, p: Row -> bool) {
    forall a: Addr, st: Byte, e: bool, room: nat {:trigger em(a, st, e, room)} :: p(em(a, st, e, room).row)
  }

  lemma {:induction false} ForwardAll(em: Emitter, a: Addr, st: Byte, e: bool, n: nat, p: Row -> bool)
    requires Yields(em, p)
    ensures All(Forward(em, a, st, e, n), p)
    decreases n
  {
    if n > 0 {
      var x := em(a, st, e, 0);
      ForwardAll(em, Past(x.row), x.status, x.e, n - 1, p);
    }
  }

  lemma {:induction false} GroupAll(em: Emitter, a: Addr, room: nat, st: Byte, e: bool, p: Row -> bool)
    requires Yields(em, p)
    ensures All(Group(em, a, room, st, e), p)
    decreases room
  {
    var x := em(a, st, e, room);
    if x.row.size < room {
      GroupAll(em, Past(x.row), room - x.row.size, x.status, x.e, p);
    }
  }

  lemma {:induction false} BeforeAll(em: Emitter, pk: Picker, e: bool, center: Addr, gr: nat -> seq<Row>,
                                    n: nat, p: Row -> bool)
    requires Yields(em, p) && Grouped(em, pk, e, center, gr)
    ensures All(Before(gr, n), p)
  {
    if n > 0 {
      assert GroupAt(em, pk, e, center, gr, n - 1);
      var pick := pk(Boundary(pk, center, n - 1));
      GroupAll(em, pick.addr, pick.size, pick.status, e, p);
      BeforeAll(em, pk, e, center, gr, n - 1, p);
    }
  }

  lemma SuffixAll(rows: seq<Row>, n: nat, p: Row -> bool)
    requires All(rows, p)
    ensures All(Suffix(rows, n), p)
  {
    SuffixIs(rows, n);
  }
}
