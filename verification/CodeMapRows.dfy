/**
 One row of a disassembly: how far it may reach and what it may claim to be.
 */
module CodeMapRows {
  import opened Machine
  import opened CodeMapEvidence

  datatype Kind = Instruction | Data

  /** How many bytes a row covers. */
  type Span = n: int | 1 <= n <= MAX_INSN_LEN witness 1

  datatype Row = Row(
    addr: Addr,
    size: Span,
    status: Byte,
    effAddr: int,
    recorded: bool,
    kind: Kind,
    startRecorded: bool,
    bytes: seq<Byte>)

  /** The width of the decode at `a` is itself live-execution evidence. */
  predicate Truth(ev: Evidence, a: Addr, st: Byte) {
    ev.believed(a) && ev.anchorStatus(a) == st
  }

  /** The first believed anchor strictly inside the `sz` bytes at `a`, from offset `i` on, or `sz`. */
  function FirstInterior(ev: Evidence, a: Addr, i: nat, sz: nat): (n: nat)
    ensures i <= sz ==> i <= n <= sz
    decreases sz - i
  {
    if i >= sz then sz
    else if ev.BelievedAt(a, i) then i
    else FirstInterior(ev, a, i + 1, sz)
  }

  lemma FirstInteriorIsFirst(ev: Evidence, a: Addr, i: nat, sz: nat)
    requires i <= sz
    ensures var n := FirstInterior(ev, a, i, sz);
            && (forall j :: i <= j < n ==> !ev.BelievedAt(a, j))
            && (n < sz ==> ev.BelievedAt(a, n))
    decreases sz - i
  {
  }

  /** The bytes the row may claim: the decode, cut to the room and to the first interior anchor. */
  function RowSize(ev: Evidence, a: Addr, st: Byte, room: nat): (n: Span)
    ensures n <= ev.Decode(a, st)
    ensures room > 0 ==> n <= room
  {
    var decoded := ev.Decode(a, st);
    var sz := if room > 0 && decoded > room then room else decoded;
    if Truth(ev, a, st) then sz else FirstInterior(ev, a, 1, sz)
  }

  /** Byte slot `i` of a row of `n` bytes: its own memory, or zero past its end. */
  function RowByte(ev: Evidence, a: Addr, n: nat, i: nat): Byte {
    if i < n then ev.mem(After(a, i)) else 0
  }

  function RowBytes(ev: Evidence, a: Addr, n: nat): (b: seq<Byte>)
    ensures |b| == MAX_INSN_LEN
  {
    [RowByte(ev, a, n, 0), RowByte(ev, a, n, 1), RowByte(ev, a, n, 2), RowByte(ev, a, n, 3)]
  }

  function RowAt(ev: Evidence, a: Addr, st: Byte, recorded: bool, room: nat): Row {
    var n := RowSize(ev, a, st, room);
    var cut := n < ev.Decode(a, st);
    Row(a, n, st,
        if cut then -1 else ev.disasm(a, st).eff,
        recorded && !cut,
        if cut then Data else Instruction,
        ev.believed(a),
        RowBytes(ev, a, n))
  }

  /** What emitting the row at an address yields: the row, and the estimate carried past it. */
  datatype Emitted = Emitted(row: Row, status: Byte, e: bool)

  /** A source of rows: address, running status, running emulation flag and room (0 for no bound). */
  type Emitter = (Addr, Byte, bool, nat) -> Emitted

  /** The row at `a` when the running status estimate is `st`: recorded status wins. */
  function EmittedRow(ev: Evidence, a: Addr, st: Byte, room: nat): Row {
    RowAt(ev, a, ev.RecordedStatus(a, st), ev.believed(a), room)
  }

  function EmitAt(ev: Evidence, a: Addr, st: Byte, e: bool, room: nat): Emitted {
    var next := ev.propagate(a, ev.RecordedStatus(a, st), e);
    Emitted(EmittedRow(ev, a, st, room), next.0, next.1)
  }

  function RowEmitter(ev: Evidence): Emitter {
    (a: Addr, st: Byte, e: bool, room: nat) => EmitAt(ev, a, st, e, room)
  }

  ghost predicate EmitsAt(ev: Evidence, em: Emitter, a: Addr, st: Byte, e: bool, room: nat) {
    em(a, st, e, room) == EmitAt(ev, a, st, e, room)
  }

  /** `em` yields exactly the rows of `ev`. */
  ghost predicate Emits(ev: Evidence, em: Emitter) {
    forall a: Addr, st: Byte, e: bool, room: nat {:trigger EmitsAt(ev, em, a, st, e, room)} ::
      EmitsAt(ev, em, a, st, e, room)
  }

  // ---- The same computed step by step ---------------------------------------

  method Fill(ev: Evidence, a: Addr, st: Byte, recorded: bool, maxSize: nat) returns (ln: Row)
    ensures ln == RowAt(ev, a, st, recorded, maxSize)
  {
    var decoded := ev.Decode(a, st);
    var sz: nat := decoded;
    if maxSize > 0 && sz > maxSize {
      sz := maxSize;
    }
    if !Truth(ev, a, st) {
      ghost var limit: nat := sz;
      var i := 1;
      while i < sz
        invariant 1 <= i <= sz == limit
        invariant FirstInterior(ev, a, 1, limit) == FirstInterior(ev, a, i, limit)
      {
        if ev.BelievedAt(a, i) {
          sz := i;
          break;
        }
        i := i + 1;
      }
    }
    assert sz == RowSize(ev, a, st, maxSize);
    var rec, eff := recorded, ev.disasm(a, st).eff;
    if sz < decoded {
      rec, eff := false, -1;
    }
    var bytes: seq<Byte> := [0, 0, 0, 0];
    var b := 0;
    while b < sz && b < 4
      invariant 0 <= b <= 4 && b <= sz && |bytes| == 4
      invariant forall j :: 0 <= j < 4 ==> bytes[j] == RowByte(ev, a, b, j)
    {
      bytes := bytes[b := ev.mem(After(a, b))];
      b := b + 1;
    }
    assert bytes == RowBytes(ev, a, sz);
    ln := Row(a, sz, st, eff, rec, if sz < decoded then Data else Instruction, ev.believed(a), bytes);
  }

  method Emit(ev: Evidence, a: Addr, runStatus: Byte, runE: bool, maxSize: nat, ghost em: Emitter)
    returns (ln: Row, nextStatus: Byte, nextE: bool)
    requires Emits(ev, em)
    ensures Emitted(ln, nextStatus, nextE) == em(a, runStatus, runE, maxSize)
  {
    assert EmitsAt(ev, em, a, runStatus, runE, maxSize);
    var st := ev.RecordedStatus(a, runStatus);
    ln := Fill(ev, a, st, ev.believed(a), maxSize);
    var next := ev.propagate(a, st, runE);
    nextStatus, nextE := next.0, next.1;
  }

  // ---- What a row promises --------------------------------------------------

  /** A believed instruction start strictly inside a row is covered only by another believed start. */
  predicate SwallowsNoAnchor(ev: Evidence, row: Row) {
    ev.believed(row.addr) || forall i :: 1 <= i < row.size ==> !ev.BelievedAt(row.addr, i)
  }

  /** A row covers every byte of an instruction the raw decoder gives this length; one it cannot tell is one byte. */
  predicate Whole(size: nat, raw: RawLength) {
    size == if raw >= 1 then raw else 1
  }

  /**
   A row tells the truth about itself: it is an instruction exactly when it owns every
   byte of its decode, it is called recorded exactly when it also starts on believed
   evidence decoded at the recorded status, and a cut row claims no effective address.
   */
  predicate Honest(ev: Evidence, row: Row) {
    && (row.size == 1 || row.size <= ev.disasm(row.addr, row.status).len)
    && (row.kind == Instruction <==> Whole(row.size, ev.disasm(row.addr, row.status).len))
    && (row.kind == Data ==> row.effAddr == -1)
    && (row.kind == Instruction ==> row.effAddr == ev.disasm(row.addr, row.status).eff)
    && (row.recorded <==> ev.believed(row.addr) && row.kind == Instruction)
    && (ev.believed(row.addr) ==> row.status == ev.anchorStatus(row.addr))
    && (row.startRecorded <==> ev.believed(row.addr))
    && |row.bytes| == MAX_INSN_LEN
    && (forall i :: 0 <= i < row.size ==> row.bytes[i] == ev.mem(After(row.addr, i)))
    && (forall i :: row.size <= i < MAX_INSN_LEN ==> row.bytes[i] == 0)
  }

  ghost predicate Kept(ev: Evidence, row: Row) {
    SwallowsNoAnchor(ev, row) && Honest(ev, row)
  }

  lemma EmittedRowSwallowsNone(ev: Evidence, a: Addr, st: Byte, room: nat)
    ensures SwallowsNoAnchor(ev, EmittedRow(ev, a, st, room))
  {
    var n := ev.Decode(a, ev.RecordedStatus(a, st));
    FirstInteriorIsFirst(ev, a, 1, if 0 < room < n then room else n);
  }

  lemma EmittedRowHonest(ev: Evidence, a: Addr, st: Byte, room: nat)
    ensures var row := EmittedRow(ev, a, st, room);
            row.addr == a && Honest(ev, row)
  {
  }

  lemma EmittedRowKept(ev: Evidence, a: Addr, st: Byte, room: nat)
    ensures var row := EmittedRow(ev, a, st, room);
            row.addr == a && Kept(ev, row)
  {
    EmittedRowSwallowsNone(ev, a, st, room);
    EmittedRowHonest(ev, a, st, room);
  }

  /**
   A row has the raw decoder's length, and one byte where the decoder cannot tell, exactly when that
   fits the room and the row either starts on a believed start or has none inside that length.
   Otherwise it ends at the room, or at the first believed start inside it.
   */
  lemma RowIsDecode(ev: Evidence, a: Addr, st: Byte, room: nat)
    ensures var row := EmittedRow(ev, a, st, room);
            var raw := ev.disasm(a, row.status).len;
            var full: nat := if raw >= 1 then raw else 1;
            && row.status == (if ev.believed(a) then ev.anchorStatus(a) else st)
            && (row.size == full <==>
                  (room == 0 || full <= room)
                  && (ev.believed(a) || forall i :: 1 <= i < full ==> !ev.believed(After(a, i))))
            && (row.size != full ==>
                  row.size < full && (row.size == room || (!ev.believed(a) && ev.believed(After(a, row.size)))))
            && (ev.believed(a) || forall i :: 1 <= i < row.size ==> !ev.believed(After(a, i)))
  {
    var full: nat := ev.Decode(a, ev.RecordedStatus(a, st));
    var cut: nat := if 0 < room < full then room else full;
    FirstInteriorIsFirst(ev, a, 1, cut);
    var row := EmittedRow(ev, a, st, room);
    if row.size == full && !ev.believed(a) {
      forall i | 1 <= i < full
        ensures !ev.believed(After(a, i))
      {
        assert !ev.BelievedAt(a, i);
      }
    }
    assert forall i :: 1 <= i < row.size ==> ev.BelievedAt(a, i) == ev.believed(After(a, i));
  }
}
