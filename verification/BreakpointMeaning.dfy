/**
 What a breakpoint is for: one that was added stops a matching processor, the table's
 operations told key by key, and what a condition asks of the registers.
 */
module BreakpointMeaning {
  import opened Machine
  import opened Breakpoints
  import opened HitCounts
  import opened DebugCore
  import opened BreakpointTheorems

  // ---- The table, key by key ---------------------------------------------------------------

  predicate Real(owner: int) {
    0 <= owner <= 6
  }

  /** Adding arms the key for the owner, whatever was there, and touches no other. */
  lemma AddedKeyByKey(t: Table, key: BpKey, owner: int, k: BpKey)
    ensures var u := Apply(t, Add(key, owner));
            && key in u && u[key].enabled
            && (forall o :: o in u[key].owners <==> (key in t && o in t[key].owners) || (o == owner && Real(o)))
            && (k != key ==> (k in u <==> k in t) && (k in t ==> u[k] == t[k]))
  {
  }

  /** Removing takes a real owner off a key it holds; the key goes when that was the last. */
  lemma RemovedKeyByKey(t: Table, key: BpKey, owner: int, k: BpKey)
    ensures var u := Apply(t, Remove(key, owner));
            && (k in u <==> k in t && !(k == key && Real(owner) && t[k].owners == {owner}))
            && (k in u ==> u[k].enabled == t[k].enabled)
            && (k in u && k != key ==> u[k].owners == t[k].owners)
            && (k in u && k == key ==> forall o :: o in u[k].owners <==> o in t[k].owners && !(o == owner && Real(o)))
  {
    if key in t && owner in t[key].owners && t[key].owners <= {owner} {
      assert t[key].owners == {owner};
    }
  }

  /** Clearing an owner is that for every key. */
  lemma ClearedKeyByKey(t: Table, owner: int, k: BpKey)
    ensures var u := Apply(t, ClearOwner(owner));
            && (k in u <==> k in t && !(Real(owner) && t[k].owners == {owner}))
            && (k in u ==> u[k].enabled == t[k].enabled
                           && forall o :: o in u[k].owners <==> o in t[k].owners && !(o == owner && Real(o)))
  {
    if k in t && owner in t[k].owners && t[k].owners <= {owner} {
      assert t[k].owners == {owner};
    }
  }

  /** The bank register of a window is part of what a breakpoint is; elsewhere it is ignored. */
  predicate Windowed(gen2: bool, pc: int, bank: Bank) {
    pc >= 0xA000 && !(gen2 && bank != 0)
  }

  lemma SameKeyExactly(gen2: bool, pc: int, bank: Bank, s: int, pc': int, bank': Bank, s': int)
    ensures KeyOf(gen2, pc, bank, s) == KeyOf(gen2, pc', bank', s')
            <==> pc == pc' && bank == bank' && (Windowed(gen2, pc, bank) ==> s == s')
  {
  }

  /** An entry matches a processor at its address and bank, with the register of the window it is in
      holding its selector or any bank being asked for, as long as it is enabled. */
  lemma MatchesExactly(gen2: bool, b: Breakpoint, m: Cpu)
    ensures Matches(gen2, b, m) <==>
              b.enabled && m.pc == b.key.pc && m.k == b.key.bank
              && (Windowed(gen2, m.pc, m.k) && b.key.selector != -1 ==>
                    b.key.selector == if m.pc < 0xC000 then m.ram else m.rom)
  {
  }

  // ---- What was added stops ------------------------------------------------------------------

  /** An unconditional breakpoint past its ignore budget stops every arrival at its address, bank and
      window bank, right after it has been added and whatever else is in the table. */
  lemma AddedStops(gen2: bool, t: Table, bps: seq<Breakpoint>, infos: map<BpKey, Info>,
                   pc: int, bank: Bank, selector: int, owner: int, m: Cpu)
    requires Unique(bps) && Claims(bps) == Apply(t, Add(KeyOf(gen2, pc, bank, selector), owner))
    requires var i := InfoOf(infos, KeyOf(gen2, pc, bank, selector)); !i.hasCond && i.ignoring <= i.hits
    requires m.pc == pc && m.k == bank
    requires Windowed(gen2, pc, bank) && selector != -1 ==> selector == if pc < 0xC000 then m.ram else m.rom
    ensures Arrive(gen2, bps, infos, m).stop
  {
    var key := KeyOf(gen2, pc, bank, selector);
    var i := Breakpoints.Find(bps, key);
    AddedKeyByKey(t, key, owner, key);
    ClaimsAt(bps, key);
    MatchesExactly(gen2, bps[i], m);
    assert Fires(gen2, bps[i], infos, m);
    ArriveStops(gen2, bps, infos, m);
  }

  /** Where nothing enabled matches, nothing stops and nothing is counted. */
  lemma {:induction false} DisabledNeverStops(gen2: bool, bps: seq<Breakpoint>, infos: map<BpKey, Info>, m: Cpu)
    requires forall i :: 0 <= i < |bps| && m.pc == bps[i].key.pc && m.k == bps[i].key.bank ==> !bps[i].enabled
    ensures Arrive(gen2, bps, infos, m) == Arrival(infos, false)
  {
    if bps != [] {
      assert m.pc == bps[0].key.pc && m.k == bps[0].key.bank ==> !bps[0].enabled;
      assert forall i :: 0 <= i < |bps[1..]| ==> bps[1..][i] == bps[i + 1];
      DisabledNeverStops(gen2, bps[1..], infos, m);
    }
  }

  // ---- Conditions ----------------------------------------------------------------------------

  /** What an operand shows: registers as wide as the processor has them, memory as it is. */
  function Seen(operand: int, at: Addr, m: Cpu): nat {
    var native := m.is65c816 && !m.e;
    match operand
    case 0 => if native && m.status & 0x20 == 0 then m.c else m.c % 256
    case 1 => if native && m.status & 0x10 == 0 then m.x else m.x % 256
    case 2 => if native && m.status & 0x10 == 0 then m.y else m.y % 256
    case 3 => m.sp
    case 4 => m.status as int
    case 5 => m.read(at) as int
    case 6 => m.read(at) as int + 256 * m.read(Wrap(at + 1)) as int
    case _ => 0
  }

  lemma SeenIs(i: Info, m: Cpu)
    ensures Seen(i.operand, i.operandAddr, m) == if Wide(i, m) then OperandValue(i, m) else OperandValue(i, m) % 256
    ensures OperandValue(i, m) < 0x10000
  {
  }

  /** A condition holds when what the operand shows compares with the value as its operator says;
      an operator that is none holds always. */
  lemma ConditionHolds(i: Info, m: Cpu)
    ensures var v := Seen(i.operand, i.operandAddr, m);
            Satisfied(i, m) <==>
              (i.hasCond ==>
                match i.op
                case 0 => v == i.value
                case 1 => v != i.value
                case 2 => v < i.value
                case 3 => v <= i.value
                case 4 => v > i.value
                case 5 => v >= i.value
                case _ => true)
  {
    SeenIs(i, m);
    var v := OperandValue(i, m);
    assert v % 0x10000 == v;
  }
}
