/**
 Conditions, ignore budgets and hit counts: a growable table of records kept beside the
 breakpoints, whose slots are marked unused rather than erased and are reused later.
 `Arrive` is what one arrival at an instruction does to the records. Dump breakpoints
 are not modelled, and a hit count is unbounded.
 */
module HitCounts {
  import opened Machine
  import opened Breakpoints

  type Word = w: int | 0 <= w < 0x10000

  /** The processor as the debugger sees it between two instructions. */
  datatype Cpu = Cpu(
    pc: Addr, k: Bank, ram: Bank, rom: Bank,
    c: Word, x: Word, y: Word, sp: Word, status: Byte,
    is65c816: bool, e: bool,
    clock: int, waiting: bool,
    read: Addr -> Byte)

  // Operand and comparison codes arrive as plain numbers from the front ends.
  const OPERAND_A: int := 0
  const OPERAND_X: int := 1
  const OPERAND_Y: int := 2
  const OPERAND_SP: int := 3
  const OPERAND_P: int := 4
  const OPERAND_BYTE: int := 5
  const OPERAND_WORD: int := 6

  const EQ: int := 0
  const NE: int := 1
  const LT: int := 2
  const LE: int := 3
  const GT: int := 4
  const GE: int := 5

  datatype Info = Info(hasCond: bool, operand: int, operandAddr: Addr, op: int, value: nat, ignoring: nat, hits: nat)

  const Blank: Info := Info(false, 0, 0, 0, 0, 0, 0)

  function OperandValue(i: Info, m: Cpu): nat {
    if i.operand == OPERAND_A then m.c
    else if i.operand == OPERAND_X then m.x
    else if i.operand == OPERAND_Y then m.y
    else if i.operand == OPERAND_SP then m.sp
    else if i.operand == OPERAND_P then m.status as int
    else if i.operand == OPERAND_BYTE then m.read(i.operandAddr) as int
    else if i.operand == OPERAND_WORD then
      m.read(i.operandAddr) as int + 256 * (m.read(Wrap(i.operandAddr + 1)) as int)
    else 0
  }

  /** Is the operand sixteen bits wide as the processor stands? */
  predicate Wide(i: Info, m: Cpu) {
    var native := m.is65c816 && !m.e;
    if i.operand == OPERAND_A then native && m.status & FLAG_MEMORY_WIDTH == 0
    else if i.operand == OPERAND_X || i.operand == OPERAND_Y then native && m.status & FLAG_INDEX_WIDTH == 0
    else i.operand == OPERAND_SP || i.operand == OPERAND_WORD
  }

  predicate Satisfied(i: Info, m: Cpu) {
    var v := OperandValue(i, m) % (if Wide(i, m) then 0x10000 else 0x100);
    !i.hasCond ||
    (if i.op == EQ then v == i.value
     else if i.op == NE then v != i.value
     else if i.op == LT then v < i.value
     else if i.op == LE then v <= i.value
     else if i.op == GT then v > i.value
     else if i.op == GE then v >= i.value
     else true)
  }

  /** The user's value is never masked, so a wide value is never equal to a narrow register. */
  lemma NarrowNeverEqualsWide(i: Info, m: Cpu)
    requires i.hasCond && i.op == EQ && !Wide(i, m) && i.value > 0xFF
    ensures !Satisfied(i, m)
  {
  }

  // ---- The slots as a map -----------------------------------------------------------

  datatype Slot = Slot(used: bool, key: BpKey, info: Info)

  predicate Holds(s: Slot, key: BpKey) {
    s.used && s.key == key
  }

  /** Where the record of `key` is, or the length when there is none. */
  function FindSlot(slots: seq<Slot>, key: BpKey): (i: nat)
    ensures i <= |slots|
    ensures i < |slots| ==> Holds(slots[i], key)
    ensures forall j :: 0 <= j < i ==> !Holds(slots[j], key)
  {
    if slots == [] || Holds(slots[0], key) then 0 else 1 + FindSlot(slots[1..], key)
  }

  ghost predicate OnePerKey(slots: seq<Slot>) {
    forall i, j :: 0 <= i < j < |slots| ==> !Holds(slots[i], slots[j].key) || !slots[j].used
  }

  function Infos(slots: seq<Slot>): map<BpKey, Info> {
    if slots == [] then map[]
    else if slots[0].used then Infos(slots[1..])[slots[0].key := slots[0].info]
    else Infos(slots[1..])
  }

  lemma {:induction false} InfosAt(slots: seq<Slot>, key: BpKey)
    ensures key in Infos(slots) <==> FindSlot(slots, key) < |slots|
    ensures key in Infos(slots) ==> Infos(slots)[key] == slots[FindSlot(slots, key)].info
  {
    if slots != [] && !Holds(slots[0], key) {
      InfosAt(slots[1..], key);
    }
  }

  lemma FindSlotAt(slots: seq<Slot>, i: nat)
    requires OnePerKey(slots) && i < |slots| && slots[i].used
    ensures FindSlot(slots, slots[i].key) == i
  {
    assert Holds(slots[i], slots[i].key);
  }

  /** Rewriting the record of a key, filling an unused slot with a new key, and appending. */
  lemma {:induction false} InfosUpdate(slots: seq<Slot>, i: nat, s: Slot)
    requires OnePerKey(slots) && i < |slots| && s.used
    requires FindSlot(slots, s.key) == i || (FindSlot(slots, s.key) == |slots| && !slots[i].used)
    ensures Infos(slots[i := s]) == Infos(slots)[s.key := s.info]
  {
    if i > 0 {
      assert slots[i := s][1..] == slots[1..][i-1 := s];
      InfosUpdate(slots[1..], i - 1, s);
    } else {
      assert slots[0 := s][1..] == slots[1..];
    }
  }

  lemma UpdateOnePerKey(slots: seq<Slot>, i: nat, s: Slot)
    requires OnePerKey(slots) && i < |slots|
    requires s.used ==> FindSlot(slots, s.key) == i || FindSlot(slots, s.key) == |slots|
    ensures OnePerKey(slots[i := s])
  {
    if s.used {
      var at := FindSlot(slots, s.key);
      forall j | 0 <= j < |slots| && j != i
        ensures !Holds(slots[j], s.key)
      {
        if at == i && j > i {
          assert !Holds(slots[i], slots[j].key) || !slots[j].used;
        }
      }
    }
  }

  lemma {:induction false} InfosAppend(slots: seq<Slot>, s: Slot)
    requires s.used && FindSlot(slots, s.key) == |slots|
    ensures Infos(slots + [s]) == Infos(slots)[s.key := s.info]
  {
    if slots == [] {
      assert slots + [s] == [s];
    } else {
      assert (slots + [s])[1..] == slots[1..] + [s];
      InfosAppend(slots[1..], s);
    }
  }

  lemma {:induction false} InfosDrop(slots: seq<Slot>, i: nat)
    requires OnePerKey(slots) && i < |slots| && slots[i].used
    ensures Infos(slots[i := slots[i].(used := false)]) == Infos(slots) - {slots[i].key}
  {
    var s := slots[i].(used := false);
    if i > 0 {
      assert slots[i := s][1..] == slots[1..][i-1 := s];
      InfosDrop(slots[1..], i - 1);
    } else {
      assert slots[0 := s][1..] == slots[1..];
      FindSlotAt(slots, 0);
      forall j | 0 <= j < |slots[1..]|
        ensures !Holds(slots[1..][j], slots[0].key)
      {
        assert slots[1..][j] == slots[j+1];
      }
      InfosAt(slots[1..], slots[0].key);
    }
  }

  lemma {:induction false} NoneUsed(slots: seq<Slot>)
    requires forall i :: 0 <= i < |slots| ==> !slots[i].used
    ensures Infos(slots) == map[]
  {
    if slots != [] {
      NoneUsed(slots[1..]);
    }
  }

  // ---- One arrival --------------------------------------------------------------------

  function InfoOf(infos: map<BpKey, Info>, key: BpKey): Info {
    if key in infos then infos[key] else Blank
  }

  predicate Matches(gen2: bool, b: Breakpoint, m: Cpu) {
    b.enabled && m.pc == b.key.pc && m.k == b.key.bank
    && SelectorMatches(gen2, b.key.selector, m.pc, m.k, m.ram, m.rom)
  }

  datatype Arrival = Arrival(infos: map<BpKey, Info>, stop: bool)

  /** The entries in table order: every satisfied match is counted, up to the first that fires. */
  function Arrive(gen2: bool, bps: seq<Breakpoint>, infos: map<BpKey, Info>, m: Cpu): Arrival {
    if bps == [] then Arrival(infos, false)
    else
      var key := bps[0].key;
      var info := InfoOf(infos, key);
      if !Matches(gen2, bps[0], m) then Arrive(gen2, bps[1..], infos, m)
      else if !Satisfied(info, m) then Arrive(gen2, bps[1..], infos[key := info], m)
      else
        var counted := info.(hits := info.hits + 1);
        if counted.hits > info.ignoring then Arrival(infos[key := counted], true)
        else Arrive(gen2, bps[1..], infos[key := counted], m)
  }

  class CondTable {
    const gen2: bool
    var slots: seq<Slot>

    ghost predicate Valid()
      reads this
    {
      OnePerKey(slots)
    }

    ghost function Records(): map<BpKey, Info>
      reads this
    {
      Infos(slots)
    }

    constructor (gen2: bool)
      ensures Valid() && this.gen2 == gen2 && Records() == map[]
    {
      this.gen2 := gen2;
      slots := [];
    }

    /** The slot holding `key`, or the number of slots. */
    method Locate(key: BpKey) returns (i: nat)
      requires Valid()
      ensures i == FindSlot(slots, key)
      ensures i < |slots| <==> key in Records()
      ensures i < |slots| ==> slots[i].used && slots[i].key == key && slots[i].info == Records()[key]
    {
      i := 0;
      while i < |slots| && !(slots[i].used && slots[i].key == key)
        invariant i <= |slots|
        invariant forall j :: 0 <= j < i ==> !Holds(slots[j], key)
      {
        i := i + 1;
      }
      assert i < |slots| ==> Holds(slots[i], key);
      InfosAt(slots, key);
    }

    /** Rewrite the record at `i`. */
    method Rewrite(i: nat, info: Info)
      requires Valid() && i < |slots| && slots[i].used
      modifies this
      ensures Valid() && |slots| == old(|slots|)
      ensures Records() == old(Records())[old(slots)[i].key := info]
      ensures slots[i] == old(slots)[i].(info := info)
    {
      var s := slots[i].(info := info);
      FindSlotAt(slots, i);
      InfosUpdate(slots, i, s);
      UpdateOnePerKey(slots, i, s);
      slots := slots[i := s];
    }

    /** Put a blank record for a new key into the first unused slot, or into a new one. */
    method Occupy(key: BpKey) returns (i: nat)
      requires Valid() && key !in Records()
      modifies this
      ensures Valid() && i < |slots| && slots[i] == Slot(true, key, Blank)
      ensures Records() == old(Records())[key := Blank]
    {
      var s := Slot(true, key, Blank);
      InfosAt(slots, key);
      i := 0;
      while i < |slots| && slots[i].used
        invariant i <= |slots|
      {
        i := i + 1;
      }
      if i < |slots| {
        InfosUpdate(slots, i, s);
        UpdateOnePerKey(slots, i, s);
        slots := slots[i := s];
      } else {
        InfosAppend(slots, s);
        slots := slots + [s];
      }
    }

    method Ensure(key: BpKey) returns (i: nat)
      requires Valid()
      modifies this
      ensures Valid() && i < |slots|
      ensures slots[i] == Slot(true, key, InfoOf(old(Records()), key))
      ensures Records() == old(Records())[key := InfoOf(old(Records()), key)]
    {
      i := Locate(key);
      if i == |slots| {
        i := Occupy(key);
      } else {
        assert Records() == Records()[key := InfoOf(Records(), key)];
      }
    }

    method SetCondition(pc: int, bank: Bank, selector: int, operand: int, operandAddr: Addr, op: int, value: nat)
      requires Valid()
      modifies this
      ensures Valid()
      ensures var key := KeyOf(gen2, pc, bank, selector);
              Records() == old(Records())[key := Info(true, operand, operandAddr, op, value,
                InfoOf(old(Records()), key).ignoring, InfoOf(old(Records()), key).hits)]
    {
      var key := KeyOf(gen2, pc, bank, selector);
      var i := Ensure(key);
      Rewrite(i, Info(true, operand, operandAddr, op, value, slots[i].info.ignoring, slots[i].info.hits));
    }

    /** Drops the test; the count and the ignore budget stay. */
    method ClearCondition(pc: int, bank: Bank, selector: int)
      requires Valid()
      modifies this
      ensures Valid()
      ensures var key := KeyOf(gen2, pc, bank, selector);
              Records() == if key in old(Records()) then old(Records())[key := old(Records())[key].(hasCond := false)]
                           else old(Records())
    {
      var i := Locate(KeyOf(gen2, pc, bank, selector));
      if i < |slots| {
        Rewrite(i, slots[i].info.(hasCond := false));
      }
    }

    method SetIgnore(pc: int, bank: Bank, selector: int, n: nat)
      requires Valid()
      modifies this
      ensures Valid()
      ensures var key := KeyOf(gen2, pc, bank, selector);
              Records() == old(Records())[key := InfoOf(old(Records()), key).(ignoring := n)]
    {
      var i := Ensure(KeyOf(gen2, pc, bank, selector));
      Rewrite(i, slots[i].info.(ignoring := n));
    }

    method Hits(pc: int, bank: Bank, selector: int) returns (n: nat)
      requires Valid()
      ensures n == InfoOf(Records(), KeyOf(gen2, pc, bank, selector)).hits
    {
      var i := Locate(KeyOf(gen2, pc, bank, selector));
      n := if i < |slots| then slots[i].info.hits else 0;
    }

    method ResetHits(pc: int, bank: Bank, selector: int)
      requires Valid()
      modifies this
      ensures Valid()
      ensures var key := KeyOf(gen2, pc, bank, selector);
              Records() == if key in old(Records()) then old(Records())[key := old(Records())[key].(hits := 0)]
                           else old(Records())
    {
      var i := Locate(KeyOf(gen2, pc, bank, selector));
      if i < |slots| {
        Rewrite(i, slots[i].info.(hits := 0));
      }
    }

    method Forget(pc: int, bank: Bank, selector: int)
      requires Valid()
      modifies this
      ensures Valid()
      ensures Records() == old(Records()) - {KeyOf(gen2, pc, bank, selector)}
    {
      var i := Locate(KeyOf(gen2, pc, bank, selector));
      if i < |slots| {
        InfosDrop(slots, i);
        UpdateOnePerKey(slots, i, slots[i].(used := false));
        slots := slots[i := slots[i].(used := false)];
      }
    }

    method ForgetAll()
      requires Valid()
      modifies this
      ensures Valid() && Records() == map[]
    {
      var i := 0;
      while i < |slots|
        invariant i <= |slots| && OnePerKey(slots)
        invariant forall j :: 0 <= j < i ==> !slots[j].used
      {
        UpdateOnePerKey(slots, i, slots[i].(used := false));
        slots := slots[i := slots[i].(used := false)];
        i := i + 1;
      }
      NoneUsed(slots);
    }
  }
}
