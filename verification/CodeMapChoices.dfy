/**
 What the disassembler chooses, told without its own search: which instruction the walk steps
 back to, how many rows a window has, which status each row of a run is decoded with, and
 which records speak for an address.
 */
module CodeMapChoices {
  import opened Machine
  import opened CodeMapEvidence
  import opened CodeMapRows
  import opened CodeMapTiling
  import opened CodeMapWindow
  import opened CodeMapTheorems

  // ---- The step back ------------------------------------------------------------------------

  /** The status known at `a`, or else the processor's. */
  function KnownStatus(ev: Evidence, a: Addr): Byte {
    if ev.believed(a) then ev.anchorStatus(a) else ev.regStatus
  }

  /** The instruction `k` bytes before `b`, at its recorded status or else the one known at `b`, ends on `b`. */
  predicate Lands(ev: Evidence, b: Addr, k: nat) {
    var p := Prior(b, k);
    var raw := ev.disasm(p, if ev.believed(p) then ev.anchorStatus(p) else KnownStatus(ev, b)).len;
    1 <= k <= 4 && k == if raw >= 1 then raw else 1
  }

  lemma RankLands(ev: Evidence, b: Addr, k: nat)
    requires 1 <= k <= 4
    ensures Lands(ev, b, k) <==> Rank(ev, b, k) > 0
    ensures Lands(ev, b, k) ==> (Rank(ev, b, k) == 3 <==> ev.believed(Prior(b, k)))
    ensures Lands(ev, b, k) ==> (Rank(ev, b, k) >= 2 <==> ev.believed(Prior(b, k)) || ev.spanStart(Prior(b, k)))
  {
  }

  /**
   The walk steps back to the nearest recorded instruction that ends on `b`; if there is none, to
   the nearest the compiler starts a span with; else to the nearest that ends there at all; else one byte.
   */
  lemma WalkPicksBest(ev: Evidence, b: Addr)
    ensures var p := PrevPick(ev, b);
            && p.addr == Prior(b, p.size)
            && p.status == (if ev.believed(p.addr) && Lands(ev, b, p.size) then ev.anchorStatus(p.addr)
                            else KnownStatus(ev, b))
            && (p.recorded <==> ev.believed(p.addr) && Lands(ev, b, p.size))
            && (forall k :: Lands(ev, b, k) && ev.believed(Prior(b, k)) ==> p.recorded && p.size <= k)
            && (!p.recorded ==>
                  forall k :: Lands(ev, b, k) && ev.spanStart(Prior(b, k)) ==>
                    Lands(ev, b, p.size) && ev.spanStart(p.addr) && p.size <= k)
            && (!p.recorded && !ev.spanStart(p.addr) ==>
                  forall k :: Lands(ev, b, k) ==> Lands(ev, b, p.size) && p.size <= k)
            && (!Lands(ev, b, p.size) ==> p.size == 1)
  {
    var n := BestBackoff(Ranks(ev, b));
    forall k | Lands(ev, b, k)
      ensures n > 0 && Rank(ev, b, k) <= Rank(ev, b, n) && (k < n ==> Rank(ev, b, k) < Rank(ev, b, n))
    {
      RankLands(ev, b, k);
      BestBackoffIsBest(Ranks(ev, b), k);
      assert Ranks(ev, b)(k) == Rank(ev, b, k) && Ranks(ev, b)(n) == Rank(ev, b, n);
    }
    if n > 0 {
      BestBackoffIsBest(Ranks(ev, b), n);
      assert Ranks(ev, b)(n) == Rank(ev, b, n);
      RankLands(ev, b, n);
    }
    forall k | Lands(ev, b, k)
      ensures Rank(ev, b, k) > 0 && (Rank(ev, b, k) == 3 <==> ev.believed(Prior(b, k)))
              && (Rank(ev, b, k) >= 2 <==> ev.believed(Prior(b, k)) || ev.spanStart(Prior(b, k)))
    {
      RankLands(ev, b, k);
    }
  }

  // ---- How many rows --------------------------------------------------------------------------

  /** Up to 255 instructions in front of the centre, of one to four rows each. */
  lemma TilingCounts(ev: Evidence, center: Addr, linesBefore: int)
    ensures var all := |Unbounded(ev, center, linesBefore)|;
            var n := if linesBefore < 0 then 0 else if linesBefore > 255 then 255 else linesBefore;
            n <= all <= 4 * n
  {
    EmitterSound(ev);
    PickerSound(ev);
    GroupsSound(ev, center);
    if linesBefore > 0 {
      BeforeSpans(RowEmitter(ev), WalkPicker(ev), ev.regE, center, GroupsBefore(ev, center), ClampBefore(linesBefore));
    }
  }

  lemma BuiltCounts(em: Emitter, gr: nat -> seq<Row>, center: Addr, st: Byte, e: bool,
                    linesBefore: int, linesAfter: int, cap: nat)
    requires 0 < cap
    ensures var back := |Placed(gr, ClampBefore(linesBefore), BackCapacity(cap))|;
            var all := |Before(gr, ClampBefore(linesBefore))|;
            var after, room := if linesAfter < 1 then 1 else linesAfter, cap - back;
            && back == (if all < cap - 1 then all else cap - 1)
            && |Built(em, gr, center, st, e, linesBefore, linesAfter, cap)| - back
               == if after < room then after else room
  {
    PlacedIsSuffix(gr, ClampBefore(linesBefore), BackCapacity(cap));
  }

  /** A window has the rows asked for from the centre on, at least the centre's own, as far as they
      fit; in front of it the rows of the tiling that fit. */
  lemma WindowCounts(ev: Evidence, center: Addr, linesBefore: int, linesAfter: int, cap: nat)
    requires 0 < cap
    ensures var back, all := |Back(ev, center, linesBefore, cap)|, |Unbounded(ev, center, linesBefore)|;
            var after, room := if linesAfter < 1 then 1 else linesAfter, cap - back;
            && back == (if all < cap - 1 then all else cap - 1)
            && |Window(ev, center, linesBefore, linesAfter, cap)| - back == if after < room then after else room
  {
    MadeOfParts(ev, center, linesBefore, linesAfter, cap, 0);
    MadeCounts(ev, center, linesBefore, linesAfter, cap,
               RowEmitter(ev), GroupsBefore(ev, center), ev.RecordedStatus(center, ev.regStatus));
  }

  lemma MadeCounts(ev: Evidence, center: Addr, linesBefore: int, linesAfter: int, cap: nat,
                   em: Emitter, gr: nat -> seq<Row>, st: Byte)
    requires 0 < cap && MadeOf(ev, center, linesBefore, linesAfter, cap, 0, em, gr, st)
    ensures var back, all := |Back(ev, center, linesBefore, cap)|, |Unbounded(ev, center, linesBefore)|;
            var after, room := if linesAfter < 1 then 1 else linesAfter, cap - back;
            && back == (if all < cap - 1 then all else cap - 1)
            && |Window(ev, center, linesBefore, linesAfter, cap)| - back == if after < room then after else room
  {
    BuiltCounts(em, gr, center, st, ev.regE, linesBefore, linesAfter, cap);
  }

  // ---- What each row of a run is decoded with --------------------------------------------------

  /** The rows follow each other, each at its recorded status or else the one carried to it. */
  ghost predicate CarriedOn(ev: Evidence, rows: seq<Row>, a: Addr, st: Byte, e: bool)
    decreases |rows|
  {
    rows == [] ||
    (rows[0].addr == a && rows[0].status == (if ev.believed(a) then ev.anchorStatus(a) else st)
     && var next := ev.propagate(a, rows[0].status, e);
        CarriedOn(ev, rows[1..], After(a, rows[0].size), next.0, next.1))
  }

  lemma {:induction false} ForwardCarries(ev: Evidence, a: Addr, st: Byte, e: bool, n: nat)
    ensures CarriedOn(ev, Forward(RowEmitter(ev), a, st, e, n), a, st, e)
    decreases n
  {
    if n > 0 {
      var x := RowEmitter(ev)(a, st, e, 0);
      ForwardCarries(ev, Past(x.row), x.status, x.e, n - 1);
    }
  }

  /** A run from an address starts at its recorded status or else the processor's. */
  lemma RunCarries(ev: Evidence, start: Addr, count: nat)
    ensures CarriedOn(ev, From(ev, start, count), start, KnownStatus(ev, start), ev.regE)
  {
    ForwardCarries(ev, start, KnownStatus(ev, start), ev.regE, count);
  }

  /** Where no believed start cuts it, the row is the whole instruction the raw decoder sees. */
  ghost predicate AsDecoded(ev: Evidence, row: Row) {
    var raw := ev.disasm(row.addr, row.status).len;
    var full: nat := if raw >= 1 then raw else 1;
    (ev.believed(row.addr) || forall j :: 1 <= j < full ==> !ev.believed(After(row.addr, j)))
    ==> row.size == full && row.kind == Instruction
  }

  lemma EmittedAsDecoded(ev: Evidence, a: Addr, st: Byte, e: bool)
    ensures AsDecoded(ev, RowEmitter(ev)(a, st, e, 0).row)
  {
    RowIsDecode(ev, a, st, 0);
    EmittedRowHonest(ev, a, st, 0);
  }

  /** And each of its rows is as long as the raw decoder says, unless a believed start cuts it. */
  lemma {:induction false} ForwardDecodes(ev: Evidence, a: Addr, st: Byte, e: bool, n: nat, i: nat)
    requires i < n
    ensures AsDecoded(ev, Forward(RowEmitter(ev), a, st, e, n)[i])
    decreases n
  {
    var x := RowEmitter(ev)(a, st, e, 0);
    if i == 0 {
      EmittedAsDecoded(ev, a, st, e);
    } else {
      ForwardDecodes(ev, Past(x.row), x.status, x.e, n - 1, i - 1);
    }
  }

  /** The width flags the processor forces in emulation; every other bit is what the instruction makes it. */
  function Unforced(e: bool): Byte {
    if e then 0xCF else 0xFF
  }

  /** Exchanging carry and emulation. */
  lemma ExchangeFollows(m: Cpu, banks: Banks, a: Addr, st: Byte, e: bool)
    requires m.is65c816 && MemoryAt(m, banks, a) == 0xFB
    ensures var (st', e') := Propagate(m, banks, a, st, e);
            && (e' <==> st & 1 == 1) && (st' & 1 == 1 <==> e) && (e' ==> st' & 0x30 == 0x30)
            && st' & Unforced(e') & 0xFE == st & Unforced(e') & 0xFE
  {
  }

  /** Clearing and setting the carry. */
  lemma CarryFollows(m: Cpu, banks: Banks, a: Addr, st: Byte, e: bool)
    requires m.is65c816 && (MemoryAt(m, banks, a) == 0x18 || MemoryAt(m, banks, a) == 0x38)
    ensures var (st', e') := Propagate(m, banks, a, st, e);
            && e' == e && (st' & 1 == 1 <==> MemoryAt(m, banks, a) == 0x38) && (e ==> st' & 0x30 == 0x30)
            && st' & Unforced(e) & 0xFE == st & Unforced(e) & 0xFE
  {
  }

  /** Clearing and setting the status bits the operand names. */
  lemma WidthFollows(m: Cpu, banks: Banks, a: Addr, st: Byte, e: bool)
    requires m.is65c816 && (MemoryAt(m, banks, a) == 0xC2 || MemoryAt(m, banks, a) == 0xE2)
    ensures var arg := MemoryAt(m, banks, After(a, 1));
            var (st', e') := Propagate(m, banks, a, st, e);
            && e' == e && (e ==> st' & 0x30 == 0x30)
            && (st' | arg) & Unforced(e) == (st | arg) & Unforced(e)
            && st' & arg & Unforced(e) == if MemoryAt(m, banks, a) == 0xC2 then 0 else arg & Unforced(e)
  {
  }

  /** Nothing else changes an estimate, and on a 65C02 nothing does. */
  lemma OthersFollow(m: Cpu, banks: Banks, a: Addr, st: Byte, e: bool)
    requires !m.is65c816 || MemoryAt(m, banks, a) !in [0x18 as Byte, 0x38, 0xC2, 0xE2, 0xFB]
    ensures var (st', e') := Propagate(m, banks, a, st, e);
            e' == e && st' == if m.is65c816 && e then st | 0x30 else st
  {
  }

  // ---- Which records speak for an address -----------------------------------------------------

  /** Two bank states have the same memory behind an address. */
  predicate SameMemory(gen2: bool, a: Addr, x: Banks, y: Banks) {
    if gen2 && (x.pbank != 0 || y.pbank != 0) then x.pbank == y.pbank
    else (0xA000 <= a < 0xC000 ==> x.ram == y.ram) && (0xC000 <= a ==> x.rom == y.rom)
  }

  /** They share the records of an address exactly when they have the same memory behind it. */
  lemma KeysTellMemory(gen2: bool, a: Addr, x: Banks, y: Banks)
    ensures KeyFor(gen2, a, x) == KeyFor(gen2, a, y) <==> SameMemory(gen2, a, x, y)
  {
  }

  /** What is read and decoded at an address is what the records of it are about. */
  lemma SameKeySameAnswers(m: Cpu, x: Banks, y: Banks, coverage: Coverage, spans: set<int>, a: Addr, st: Byte)
    requires KeyFor(m.gen2, a, x) == KeyFor(m.gen2, a, y) && x.pbank == y.pbank && (m.gen2 ==> x.pbank == 0)
    ensures var u, v := EvidenceOf(m, x, coverage, spans), EvidenceOf(m, y, coverage, spans);
            && u.mem(a) == v.mem(a) && u.disasm(a, st) == v.disasm(a, st)
            && u.believed(a) == v.believed(a) && u.spanStart(a) == v.spanStart(a)
  {
  }

  /** An address is read and decoded in the program bank, through the register of its window. */
  lemma AnswersAreLive(m: Cpu, banks: Banks, coverage: Coverage, spans: set<int>, a: Addr, st: Byte)
    ensures var ev := EvidenceOf(m, banks, coverage, spans);
            var window := if a < 0xA000 then -1 else if a < 0xC000 then banks.ram else banks.rom;
            && ev.mem(a) == m.read(a, banks.pbank, window)
            && ev.disasm(a, st) == m.disasm(a, banks.pbank, window, st)
            && (ev.spanStart(a) <==> banks.pbank * 65536 + a in spans)
            && ev.regStatus == m.status && ev.regE == m.e
            && forall e: bool :: ev.propagate(a, st, e) == Propagate(m, banks, a, st, e)
  {
  }
}
