/**
 The disassembler over the recording the emulator keeps: what a window believes is exactly
 what ran, told from the records and the memory of the moment.
 */
module CodeMapLive {
  import opened Machine
  import opened CodeMapEvidence
  import opened CodeMapRows
  import opened CodeMapWindow
  import opened CodeMapTheorems
  import opened CodeMapCache
  import opened CodeMapHistory

  /** The evidence a disassembly has after the records of `h`. */
  function EvidenceAfter(m: Cpu, banks: Banks, h: seq<Event>, spans: set<int>): Evidence {
    EvidenceOf(m, banks, CoverageOf(Run(h)), spans)
  }

  /** An instruction ran at `a` in the bank behind it now, its context has not been evicted since,
      and the opcode that ran is still in memory. */
  predicate StillRecorded(m: Cpu, banks: Banks, h: seq<Event>, a: Addr) {
    var key := KeyFor(m.gen2, a, banks);
    var j := LastRecord(h, key, a);
    j >= 0 && StayedSince(h, key, j) && h[j].anchor.opcode == MemoryAt(m, banks, a)
  }

  /** What is believed is what is still recorded, with the status it last ran under. */
  lemma BelievedIsRecorded(m: Cpu, banks: Banks, h: seq<Event>, spans: set<int>, a: Addr)
    ensures var ev := EvidenceAfter(m, banks, h, spans);
            (ev.believed(a) <==> StillRecorded(m, banks, h, a))
            && (ev.believed(a) ==> ev.anchorStatus(a) == h[LastRecord(h, KeyFor(m.gen2, a, banks), a)].anchor.status)
  {
    var key := KeyFor(m.gen2, a, banks);
    CoverageAt(Run(h), key);
    IndexedKeys(Run(h), key);
    CacheHoldsLatest(h, key);
    if AmongLatest(h, key) {
      CoverageIsSinceEntry(h, key, a);
    }
  }

  /** No row of a window swallows an instruction that ran and is still there, unless it starts on one. */
  lemma RecordedStartsShown(m: Cpu, banks: Banks, h: seq<Event>, spans: set<int>,
                            center: Addr, linesBefore: int, linesAfter: int, cap: nat, row: Row, i: nat)
    requires 0 < cap
    requires row in Window(EvidenceAfter(m, banks, h, spans), center, linesBefore, linesAfter, cap)
    requires 0 < i < row.size && StillRecorded(m, banks, h, After(row.addr, i))
    ensures StillRecorded(m, banks, h, row.addr)
  {
    var ev := EvidenceAfter(m, banks, h, spans);
    WindowRowsKept(ev, center, linesBefore, linesAfter, cap, row);
    BelievedIsRecorded(m, banks, h, spans, After(row.addr, i));
    BelievedIsRecorded(m, banks, h, spans, row.addr);
    assert ev.BelievedAt(row.addr, i);
  }
}
