/**
 The breakpoint table: an owner-counted list of entries kept unique by address, program
 bank and normalised window bank, with a bitmap over the addresses that have an entry.
 An entry's owner bit mask is the set of owners it names.
 */
module Breakpoints {
  import opened Machine

  const BANK_ANY: int := -1

  /** The last real owner plus one; this value itself names nobody. */
  const OWNER_COUNT: int := 7

  function OwnerSet(owner: int): set<int> {
    if 0 <= owner < OWNER_COUNT then {owner} else {}
  }

  /** Some bank register decides which memory `addr` names. */
  predicate AddrIsBanked(gen2: bool, addr: int, pbank: Bank) {
    addr >= 0xA000 && !(gen2 && pbank != 0)
  }

  /** Outside a banked window there is nothing to select. */
  function Normalise(gen2: bool, selector: int, addr: int, pbank: Bank): int {
    if AddrIsBanked(gen2, addr, pbank) then selector else BANK_ANY
  }

  /** Which RAM or ROM window bank `pc` sits in. */
  function CurrentX16Bank(gen2: bool, pc: int, pbank: Bank, ram: Bank, rom: Bank): int {
    if !AddrIsBanked(gen2, pc, pbank) then BANK_ANY else if pc < 0xC000 then ram else rom
  }

  predicate SelectorMatches(gen2: bool, selector: int, addr: int, pbank: Bank, ram: Bank, rom: Bank) {
    !AddrIsBanked(gen2, addr, pbank) || selector == BANK_ANY || selector == CurrentX16Bank(gen2, addr, pbank, ram, rom)
  }

  /** What identifies a breakpoint. */
  datatype BpKey = BpKey(pc: int, bank: Bank, selector: int)

  function KeyOf(gen2: bool, pc: int, bank: Bank, selector: int): BpKey {
    BpKey(pc, bank, Normalise(gen2, selector, pc, bank))
  }

  datatype Breakpoint = Breakpoint(key: BpKey, owners: set<int>, enabled: bool)

  datatype AddResult = Created | Existed

  // ---- The table as a map ---------------------------------------------------------

  datatype Claim = Claim(owners: set<int>, enabled: bool)

  /** Where `key` is, or the length when it is not there. */
  function Find(bps: seq<Breakpoint>, key: BpKey): (i: nat)
    ensures i <= |bps|
    ensures i < |bps| ==> bps[i].key == key
    ensures forall j :: 0 <= j < i ==> bps[j].key != key
  {
    if bps == [] || bps[0].key == key then 0 else 1 + Find(bps[1..], key)
  }

  ghost predicate Unique(bps: seq<Breakpoint>) {
    forall i, j :: 0 <= i < j < |bps| ==> bps[i].key != bps[j].key
  }

  /** What the table claims, entry by entry. */
  function Claims(bps: seq<Breakpoint>): map<BpKey, Claim> {
    if bps == [] then map[]
    else Claims(bps[1..])[bps[0].key := Claim(bps[0].owners, bps[0].enabled)]
  }

  lemma {:induction false} ClaimsAt(bps: seq<Breakpoint>, key: BpKey)
    ensures key in Claims(bps) <==> Find(bps, key) < |bps|
    ensures key in Claims(bps) ==>
              var b := bps[Find(bps, key)]; Claims(bps)[key] == Claim(b.owners, b.enabled)
  {
    if bps != [] && bps[0].key != key {
      ClaimsAt(bps[1..], key);
    }
  }

  lemma {:induction false} ClaimsCount(bps: seq<Breakpoint>)
    requires Unique(bps)
    ensures |Claims(bps)| == |bps|
  {
    if bps != [] {
      ClaimsCount(bps[1..]);
      ClaimsAt(bps[1..], bps[0].key);
    }
  }

  /** Appending, rewriting and erasing one entry, as map updates. */
  lemma {:induction false} ClaimsAppend(bps: seq<Breakpoint>, b: Breakpoint)
    requires Find(bps, b.key) == |bps|
    ensures Claims(bps + [b]) == Claims(bps)[b.key := Claim(b.owners, b.enabled)]
  {
    if bps == [] {
      assert bps + [b] == [b];
    } else {
      assert (bps + [b])[1..] == bps[1..] + [b];
      ClaimsAppend(bps[1..], b);
    }
  }

  lemma {:induction false} ClaimsUpdate(bps: seq<Breakpoint>, i: nat, b: Breakpoint)
    requires Unique(bps) && i < |bps| && b.key == bps[i].key
    ensures Claims(bps[i := b]) == Claims(bps)[b.key := Claim(b.owners, b.enabled)]
    ensures Unique(bps[i := b])
  {
    if i > 0 {
      assert bps[i := b][1..] == bps[1..][i-1 := b];
      ClaimsUpdate(bps[1..], i - 1, b);
    }
  }

  lemma EraseUnique(bps: seq<Breakpoint>, i: nat)
    requires Unique(bps) && i < |bps|
    ensures Unique(bps[..i] + bps[i+1..])
    ensures Find(bps[..i] + bps[i+1..], bps[i].key) == |bps| - 1
  {
    var rest := bps[..i] + bps[i+1..];
    forall j | 0 <= j < |rest|
      ensures rest[j] == bps[if j < i then j else j + 1]
    {
    }
  }

  lemma ConsClaims(b: Breakpoint, bps: seq<Breakpoint>)
    ensures Claims([b] + bps) == Claims(bps)[b.key := Claim(b.owners, b.enabled)]
  {
    assert ([b] + bps)[1..] == bps;
  }

  lemma {:induction false} ClaimsErase(bps: seq<Breakpoint>, i: nat)
    requires Unique(bps) && i < |bps|
    ensures Claims(bps[..i] + bps[i+1..]) == Claims(bps) - {bps[i].key}
  {
    if i == 0 {
      assert bps[..0] + bps[1..] == bps[1..];
      ClaimsAt(bps[1..], bps[0].key);
    } else {
      var rest := bps[1..][..i-1] + bps[1..][i..];
      assert bps[..i] + bps[i+1..] == [bps[0]] + rest;
      ConsClaims(bps[0], rest);
      ClaimsErase(bps[1..], i - 1);
      assert bps[1..][i-1] == bps[i];
      assert Claims(rest) == Claims(bps[1..]) - {bps[i].key};
    }
  }
}
