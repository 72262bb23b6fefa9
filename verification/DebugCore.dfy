/**
 The debugger core: the breakpoint table with its condition records and its address
 bitmap, every operation on it, and the arrival at an instruction.
 */
module DebugCore {
  import opened Machine
  import opened PcBitmap
  import opened Breakpoints
  import opened HitCounts

  // ---- What the operations mean, on the claims ---------------------------------------

  type Table = map<BpKey, Claim>

  function OwnersOf(t: Table, key: BpKey): set<int> {
    if key in t then t[key].owners else {}
  }

  function Claimed(t: Table, key: BpKey, owner: int): Table {
    t[key := Claim(OwnersOf(t, key) + OwnerSet(owner), true)]
  }

  /** The owner lets go of a key; the entry goes with its last owner. */
  function Released(t: Table, key: BpKey, owner: int): Table {
    if key !in t || OwnersOf(t, key) !! OwnerSet(owner) then t
    else if t[key].owners <= OwnerSet(owner) then t - {key}
    else t[key := t[key].(owners := t[key].owners - OwnerSet(owner))]
  }

  /** Is this claim one the owner alone holds up? */
  predicate Vanishes(c: Claim, owner: int) {
    !(c.owners !! OwnerSet(owner)) && c.owners <= OwnerSet(owner)
  }

  function ReleasedEverywhere(t: Table, owner: int): Table {
    map key | key in t && !Vanishes(t[key], owner) :: t[key].(owners := t[key].owners - OwnerSet(owner))
  }

  // ---- Clearing an owner, entry by entry -------------------------------------------------

  function ClaimOf(b: Breakpoint): Claim {
    Claim(b.owners, b.enabled)
  }

  function ClearedOne(b: Breakpoint, owner: int): seq<Breakpoint> {
    if Vanishes(ClaimOf(b), owner) then [] else [b.(owners := b.owners - OwnerSet(owner))]
  }

  function Cleared(bps: seq<Breakpoint>, owner: int): seq<Breakpoint> {
    if bps == [] then [] else ClearedOne(bps[0], owner) + Cleared(bps[1..], owner)
  }

  lemma ReleasedWith(t: Table, key: BpKey, c: Claim, owner: int)
    requires key !in t
    ensures ReleasedEverywhere(t[key := c], owner) ==
            if Vanishes(c, owner) then ReleasedEverywhere(t, owner)
            else ReleasedEverywhere(t, owner)[key := c.(owners := c.owners - OwnerSet(owner))]
  {
  }

  /** The two ways of clearing an owner agree: entry by entry, and key by key. */
  lemma {:induction false} ClearedClaims(bps: seq<Breakpoint>, owner: int)
    requires Unique(bps)
    ensures Claims(Cleared(bps, owner)) == ReleasedEverywhere(Claims(bps), owner)
  {
    if bps != [] {
      ClearedClaims(bps[1..], owner);
      ClaimsAt(bps[1..], bps[0].key);
      ReleasedWith(Claims(bps[1..]), bps[0].key, ClaimOf(bps[0]), owner);
      if Vanishes(ClaimOf(bps[0]), owner) {
        assert Cleared(bps, owner) == Cleared(bps[1..], owner);
      } else {
        ConsClaims(bps[0].(owners := bps[0].owners - OwnerSet(owner)), Cleared(bps[1..], owner));
      }
    }
  }

  /** Clearing the entry in front of the part already cleared. */
  lemma ClearStep(was: seq<Breakpoint>, i: nat, bps: seq<Breakpoint>, owner: int)
    requires i < |was| && bps == was[..i+1] + Cleared(was[i+1..], owner)
    ensures was[i..][1..] == was[i+1..] && bps[i] == was[i]
    ensures var b := was[i];
            was[..i] + Cleared(was[i..], owner) ==
            if Vanishes(ClaimOf(b), owner) then bps[..i] + bps[i+1..]
            else bps[i := b.(owners := b.owners - OwnerSet(owner))]
  {
    assert was[i..][1..] == was[i+1..];
  }

  lemma Overwrite(m: map<BpKey, Info>, key: BpKey, first: Info, second: Info)
    ensures m[key := first][key := second] == m[key := second]
  {
  }

  // ---- Which addresses have an entry ----------------------------------------------------

  ghost function Pcs(bps: seq<Breakpoint>): set<Addr> {
    set b | b in bps :: Wrap(b.key.pc)
  }

  lemma PcsAppend(bps: seq<Breakpoint>, b: Breakpoint)
    ensures Pcs(bps + [b]) == Pcs(bps) + {Wrap(b.key.pc)}
  {
    assert forall x :: x in bps + [b] <==> x in bps || x == b;
  }

  lemma PcsUpdate(bps: seq<Breakpoint>, i: nat, b: Breakpoint)
    requires i < |bps| && b.key == bps[i].key
    ensures Pcs(bps[i := b]) == Pcs(bps)
  {
    var new_ := bps[i := b];
    forall p | p in Pcs(bps)
      ensures p in Pcs(new_)
    {
      var x :| x in bps && Wrap(x.key.pc) == p;
      var j :| 0 <= j < |bps| && bps[j] == x;
      assert new_[j] in new_ && new_[j].key == x.key;
    }
    forall p | p in Pcs(new_)
      ensures p in Pcs(bps)
    {
      var x :| x in new_ && Wrap(x.key.pc) == p;
      var j :| 0 <= j < |new_| && new_[j] == x;
      assert bps[j] in bps && bps[j].key == x.key;
    }
  }

  // ---- The table ------------------------------------------------------------------------

  class BreakpointTable {
    const gen2: bool
    var bps: seq<Breakpoint>
    const pcMap: Bitmap
    const conds: CondTable

    ghost predicate MapExact()
      requires pcMap.Valid()
      reads this, pcMap, pcMap.bytes
    {
      forall p: Addr :: pcMap.Has(p) <==> p in Pcs(bps)
    }

    ghost predicate Valid()
      reads this, pcMap, pcMap.bytes, conds
    {
      pcMap.Valid() && conds.Valid() && conds.gen2 == gen2 && Unique(bps) && MapExact()
    }

    ghost function Table(): Table
      reads this
    {
      Claims(bps)
    }

    constructor (gen2: bool)
      ensures Valid() && fresh(pcMap) && fresh(pcMap.bytes) && fresh(conds)
      ensures this.gen2 == gen2 && Table() == map[] && conds.Records() == map[]
    {
      this.gen2 := gen2;
      bps := [];
      pcMap := new Bitmap();
      conds := new CondTable(gen2);
    }

    /** Every bit again from the table: two entries may share an address. */
    method Rebuild()
      requires pcMap.Valid()
      modifies pcMap.bytes
      ensures MapExact()
    {
      pcMap.Clear();
      var i := 0;
      while i < |bps|
        invariant i <= |bps|
        invariant forall p: Addr :: pcMap.Has(p) <==> p in Pcs(bps[..i])
      {
        assert bps[..i+1] == bps[..i] + [bps[i]];
        PcsAppend(bps[..i], bps[i]);
        pcMap.Set(Wrap(bps[i].key.pc));
        i := i + 1;
      }
      assert bps[..i] == bps;
    }

    method FindEntry(key: BpKey) returns (i: nat)
      requires Unique(bps)
      ensures i == Breakpoints.Find(bps, key)
      ensures i < |bps| <==> key in Table()
      ensures i < |bps| ==> bps[i].key == key && Table()[key] == ClaimOf(bps[i])
    {
      i := 0;
      while i < |bps| && bps[i].key != key
        invariant i <= |bps|
        invariant forall j :: 0 <= j < i ==> bps[j].key != key
      {
        i := i + 1;
      }
      ClaimsAt(bps, key);
    }

    method Erase(i: nat)
      requires Valid() && i < |bps|
      modifies this, pcMap.bytes
      ensures Valid() && bps == old(bps[..i] + bps[i+1..])
      ensures Table() == old(Table()) - {old(bps[i].key)}
    {
      EraseUnique(bps, i);
      ClaimsErase(bps, i);
      bps := bps[..i] + bps[i+1..];
      Rebuild();
    }

    method Rewrite(i: nat, owners: set<int>, enabled: bool)
      requires Valid() && i < |bps|
      modifies this
      ensures Valid() && bps == old(bps)[i := Breakpoint(old(bps)[i].key, owners, enabled)]
      ensures Table() == old(Table())[old(bps)[i].key := Claim(owners, enabled)]
    {
      var b := Breakpoint(bps[i].key, owners, enabled);
      ClaimsUpdate(bps, i, b);
      PcsUpdate(bps, i, b);
      bps := bps[i := b];
    }

    method Append(b: Breakpoint)
      requires Valid() && b.key !in Table()
      modifies this, pcMap.bytes
      ensures Valid() && bps == old(bps) + [b]
      ensures Table() == old(Table())[b.key := ClaimOf(b)]
    {
      ClaimsAt(bps, b.key);
      ClaimsAppend(bps, b);
      PcsAppend(bps, b);
      bps := bps + [b];
      pcMap.Set(Wrap(b.key.pc));
    }

    method AddFor(pc: int, bank: Bank, selector: int, owner: int) returns (r: AddResult)
      requires Valid()
      modifies this, pcMap.bytes
      ensures Valid()
      ensures Table() == Claimed(old(Table()), KeyOf(gen2, pc, bank, selector), owner)
      ensures var key := KeyOf(gen2, pc, bank, selector);
              Table() == old(Table())[key := Claim(OwnersOf(old(Table()), key) + OwnerSet(owner), true)]
      ensures r == Existed <==> KeyOf(gen2, pc, bank, selector) in old(Table())
    {
      var key := KeyOf(gen2, pc, bank, selector);
      var i := FindEntry(key);
      if i < |bps| {
        Rewrite(i, bps[i].owners + OwnerSet(owner), true);
        r := Existed;
      } else {
        assert {} + OwnerSet(owner) == OwnerSet(owner);
        Append(Breakpoint(key, OwnerSet(owner), true));
        r := Created;
      }
    }

    method RemoveFor(pc: int, bank: Bank, selector: int, owner: int) returns (held: bool)
      requires Valid()
      modifies this, pcMap.bytes
      ensures Valid()
      ensures Table() == Released(old(Table()), KeyOf(gen2, pc, bank, selector), owner)
      ensures held <==> !(OwnersOf(old(Table()), KeyOf(gen2, pc, bank, selector)) !! OwnerSet(owner))
    {
      var key := KeyOf(gen2, pc, bank, selector);
      var i := FindEntry(key);
      if i == |bps| || bps[i].owners !! OwnerSet(owner) {
        return false;
      }
      var left := bps[i].owners - OwnerSet(owner);
      if left == {} {
        Erase(i);
      } else {
        Rewrite(i, left, bps[i].enabled);
      }
      held := true;
    }

    /** Backwards, so that erasing one entry cannot move another past the cursor. */
    method ClearOwner(owner: int) returns (disarmed: nat)
      requires Valid()
      modifies this, pcMap.bytes
      ensures Valid()
      ensures Table() == ReleasedEverywhere(old(Table()), owner)
      ensures disarmed == |old(Table())| - |Table()|
    {
      ghost var was := bps;
      ClaimsCount(bps);
      var i := |bps|;
      disarmed := 0;
      assert was[..i] == was && was[i..] == [];
      while i > 0
        invariant 0 <= i <= |was| && disarmed + |bps| == |was|
        invariant Valid() && bps == was[..i] + Cleared(was[i..], owner)
      {
        i := i - 1;
        assert was[i..][1..] == was[i+1..];
        var left := bps[i].owners - OwnerSet(owner);
        ClearStep(was, i, bps, owner);
        if !(bps[i].owners !! OwnerSet(owner)) {
          if left == {} {
            Erase(i);
            disarmed := disarmed + 1;
          } else {
            Rewrite(i, left, bps[i].enabled);
          }
        } else {
          assert left == bps[i].owners;
          assert bps == bps[i := bps[i].(owners := left)];
        }
      }
      assert was[0..] == was && bps == Cleared(was, owner);
      ClearedClaims(was, owner);
      ClaimsCount(bps);
    }

    method Delete(pc: int, bank: Bank, selector: int) returns (found: bool)
      requires Valid()
      modifies this, pcMap.bytes
      ensures Valid()
      ensures Table() == old(Table()) - {KeyOf(gen2, pc, bank, selector)}
      ensures found <==> KeyOf(gen2, pc, bank, selector) in old(Table())
    {
      var i := FindEntry(KeyOf(gen2, pc, bank, selector));
      found := i < |bps|;
      if found {
        Erase(i);
      }
    }

    method HasOwner(pc: int, bank: Bank, selector: int, owner: int) returns (held: bool)
      requires Valid()
      ensures held <==> !(OwnersOf(Table(), KeyOf(gen2, pc, bank, selector)) !! OwnerSet(owner))
    {
      var i := FindEntry(KeyOf(gen2, pc, bank, selector));
      held := i < |bps| && !(bps[i].owners !! OwnerSet(owner));
    }

    method ToggleFor(pc: int, bank: Bank, selector: int, owner: int)
      requires Valid()
      modifies this, pcMap.bytes
      ensures Valid()
      ensures var key := KeyOf(gen2, pc, bank, selector);
              Table() == if key in old(Table()) then old(Table()) - {key} else Claimed(old(Table()), key, owner)
    {
      var found := Delete(pc, bank, selector);
      if !found {
        var _ := AddFor(pc, bank, selector, owner);
      }
    }

    method SetEnabled(pc: int, bank: Bank, selector: int, enabled: bool) returns (found: bool)
      requires Valid()
      modifies this
      ensures Valid()
      ensures var key := KeyOf(gen2, pc, bank, selector);
              found == (key in old(Table()))
              && Table() == if found then old(Table())[key := old(Table())[key].(enabled := enabled)] else old(Table())
    {
      var i := FindEntry(KeyOf(gen2, pc, bank, selector));
      found := i < |bps|;
      if found {
        Rewrite(i, bps[i].owners, enabled);
      }
    }

    /** A delete of everything, so the records go too. */
    method ClearAll()
      requires Valid()
      modifies this, pcMap.bytes, conds
      ensures Valid() && Table() == map[] && conds.Records() == map[]
    {
      bps := [];
      Rebuild();
      conds.ForgetAll();
    }

    /** Would an enabled entry match here? Asks nothing of the records and changes nothing. */
    method IsSet(m: Cpu) returns (set_: bool)
      ensures set_ <==> exists b :: b in bps && Matches(gen2, b, m)
    {
      var i := 0;
      while i < |bps|
        invariant i <= |bps|
        invariant forall j :: 0 <= j < i ==> !Matches(gen2, bps[j], m)
      {
        if Matches(gen2, bps[i], m) {
          return true;
        }
        i := i + 1;
      }
      set_ := false;
    }

    method OnArrival(m: Cpu) returns (stop: bool)
      requires Valid()
      modifies conds
      ensures Valid()
      ensures Arrival(conds.Records(), stop) == Arrive(gen2, bps, old(conds.Records()), m)
    {
      var i := 0;
      assert bps[0..] == bps;
      while i < |bps|
        invariant i <= |bps| && conds.Valid()
        invariant Arrive(gen2, bps[i..], conds.Records(), m) == Arrive(gen2, bps, old(conds.Records()), m)
      {
        assert bps[i..][1..] == bps[i+1..];
        if Matches(gen2, bps[i], m) {
          ghost var was := conds.Records();
          var c := conds.Ensure(bps[i].key);
          var info := conds.slots[c].info;
          if Satisfied(info, m) {
            conds.Rewrite(c, info.(hits := info.hits + 1));
            Overwrite(was, bps[i].key, info, info.(hits := info.hits + 1));
            if info.hits + 1 > info.ignoring {
              return true;
            }
          }
        }
        i := i + 1;
      }
      stop := false;
    }
  }
}
