/**
 The evidence the anchored disassembler consults about one address: the recorded
 instruction starts of the bank context behind it, a decode at a given status, and
 the compiler's span starts. The alignment proofs use only `Evidence`, an
 arbitrary value of that shape, so they hold for any decoder of at most four bytes, any
 recording and any status estimate; `EvidenceOf` is the one the emulator builds.
 */
module CodeMapEvidence {
  import opened Machine

  const MAX_INSN_LEN: int := 4

  const FLAG_CARRY: Byte := 0x01

  /** What the raw decoder answers: a length (0 when it cannot tell) and an effective address. */
  type RawLength = n: int | n <= MAX_INSN_LEN
  datatype Decoded = Decoded(len: RawLength, eff: int)

  /** The part of the bank state that keys a recorded address. */
  datatype Key = Key(pbank: Bank, ram: Bank, rom: Bank)

  /** A recorded instruction start: the status it executed with and the opcode byte that was there. */
  datatype Anchor = Anchor(status: Byte, opcode: Byte)

  type Coverage = map<Key, map<Addr, Anchor>>

  function KeyFor(gen2: bool, addr: Addr, banks: Banks): Key {
    if gen2 && banks.pbank != 0 then Key(banks.pbank, 0, 0)
    else Key(0,
             if 0xA000 <= addr < 0xC000 then banks.ram else 0,
             if addr >= 0xC000 then banks.rom else 0)
  }

  /** The machine a disassembly is taken from. The decoder is any function of memory, address and status. */
  datatype Cpu = Cpu(
    read: (Addr, Bank, int) -> Byte,
    disasm: (Addr, Bank, int, Byte) -> Decoded,
    gen2: bool,
    is65c816: bool,
    status: Byte,
    e: bool)

  function CoveredBy(m: Cpu, banks: Banks, coverage: Coverage, a: Addr): map<Addr, Anchor> {
    var k := KeyFor(m.gen2, a, banks);
    if k in coverage then coverage[k] else map[]
  }

  /** The byte at `a`, read through the window that backs `a` itself. */
  function MemoryAt(m: Cpu, banks: Banks, a: Addr): Byte {
    m.read(a, banks.pbank, WindowBank(a, banks))
  }

  /** `a` was recorded as an instruction start and its opcode byte is still in memory. */
  predicate AnchorOk(m: Cpu, banks: Banks, coverage: Coverage, a: Addr) {
    var covered := CoveredBy(m, banks, coverage, a);
    a in covered && covered[a].opcode == MemoryAt(m, banks, a)
  }

  function AnchorStatus(m: Cpu, banks: Banks, coverage: Coverage, a: Addr): Byte {
    var covered := CoveredBy(m, banks, coverage, a);
    if a in covered then covered[a].status else 0
  }

  /** The status and emulation flag implied for the instruction after the one at `a`. */
  function Propagate(m: Cpu, banks: Banks, a: Addr, st: Byte, e: bool): (Byte, bool) {
    if !m.is65c816 then (st, e)
    else
      var op := MemoryAt(m, banks, a);
      var arg := MemoryAt(m, banks, After(a, 1));
      var e' := if op == 0xFB then st & FLAG_CARRY != 0 else e;
      var st' :=
        if op == 0x18 then st & !FLAG_CARRY
        else if op == 0x38 then st | FLAG_CARRY
        else if op == 0xC2 then st & !arg
        else if op == 0xE2 then st | arg
        else if op == 0xFB then (st & !FLAG_CARRY) | (if e then FLAG_CARRY else 0)
        else st;
      (if e' then st' | (FLAG_INDEX_WIDTH | FLAG_MEMORY_WIDTH) else st', e')
  }

  /** The answers the alignment works from, one function per question. */
  datatype Evidence = Evidence(
    mem: Addr -> Byte,
    believed: Addr -> bool,
    anchorStatus: Addr -> Byte,
    spanStart: Addr -> bool,
    disasm: (Addr, Byte) -> Decoded,
    propagate: (Addr, Byte, bool) -> (Byte, bool),
    regStatus: Byte,
    regE: bool)
  {
    predicate BelievedAt(a: Addr, i: nat) {
      believed(After(a, i))
    }

    function RecordedStatus(a: Addr, fallback: Byte): Byte {
      if believed(a) then anchorStatus(a) else fallback
    }

    /** The decoder's answer, clamped so that it always covers at least one byte. */
    function Decode(a: Addr, st: Byte): (n: int)
      ensures 1 <= n <= MAX_INSN_LEN
    {
      var d := disasm(a, st).len;
      if d < 1 then 1 else d
    }
  }

  /** The evidence a machine, its live banks, the recorded coverage and the span starts give. */
  function EvidenceOf(m: Cpu, banks: Banks, coverage: Coverage, spans: set<int>): Evidence {
    Evidence(
      (a: Addr) => MemoryAt(m, banks, a),
      (a: Addr) => AnchorOk(m, banks, coverage, a),
      (a: Addr) => AnchorStatus(m, banks, coverage, a),
      (a: Addr) => banks.pbank * 0x10000 + a in spans,
      (a: Addr, st: Byte) => m.disasm(a, banks.pbank, WindowBank(a, banks), st),
      (a: Addr, st: Byte, e: bool) => Propagate(m, banks, a, st, e),
      m.status,
      m.e)
  }
}
