/**
 What the breakpoint table promises its owners, and what one arrival does to the counts.
 */
module BreakpointTheorems {
  import opened Breakpoints
  import opened HitCounts
  import opened DebugCore

  // ---- Owners do not disturb each other --------------------------------------------

  /** Claiming, releasing one key and releasing everything leave every other owner's claims alone. */
  lemma OtherOwnersKept(t: Table, key: BpKey, owner: int, k: BpKey, other: int)
    requires other != owner
    ensures other in OwnersOf(Claimed(t, key, owner), k) <==> other in OwnersOf(t, k)
    ensures other in OwnersOf(Released(t, key, owner), k) <==> other in OwnersOf(t, k)
    ensures other in OwnersOf(ReleasedEverywhere(t, owner), k) <==> other in OwnersOf(t, k)
  {
  }

  /** After a release the owner holds nothing there, and the flag of what is left has not changed. */
  lemma ReleaseLetsGo(t: Table, key: BpKey, owner: int, k: BpKey)
    requires owner in OwnerSet(owner)
    ensures owner !in OwnersOf(Released(t, key, owner), key)
    ensures owner !in OwnersOf(ReleasedEverywhere(t, owner), k)
    ensures k in Released(t, key, owner) ==> k in t && Released(t, key, owner)[k].enabled == t[k].enabled
    ensures k in ReleasedEverywhere(t, owner) ==> k in t && ReleasedEverywhere(t, owner)[k].enabled == t[k].enabled
  {
  }

  /** Claiming a free key and releasing it again is no change at all. */
  lemma ClaimThenRelease(t: Table, key: BpKey, owner: int)
    requires key !in t && owner in OwnerSet(owner)
    ensures Released(Claimed(t, key, owner), key, owner) == t
  {
    assert Claimed(t, key, owner)[key].owners == OwnerSet(owner);
  }

  function ReleaseEach(t: Table, keys: seq<BpKey>, owner: int): Table {
    if keys == [] then t else ReleaseEach(Released(t, keys[0], owner), keys[1..], owner)
  }

  lemma ReleasedTwice(t: Table, key: BpKey, owner: int)
    ensures ReleasedEverywhere(Released(t, key, owner), owner) == ReleasedEverywhere(t, owner)
  {
    var a, b := ReleasedEverywhere(Released(t, key, owner), owner), ReleasedEverywhere(t, owner);
    forall k
      ensures k in a <==> k in b
      ensures k in a ==> a[k] == b[k]
    {
      if k in t && k in Released(t, key, owner) {
        assert t[k].owners - OwnerSet(owner) - OwnerSet(owner) == t[k].owners - OwnerSet(owner);
      }
    }
  }

  lemma NothingToRelease(t: Table, owner: int)
    requires forall k :: k in t ==> t[k].owners !! OwnerSet(owner)
    ensures ReleasedEverywhere(t, owner) == t
  {
    forall k | k in t
      ensures t[k].(owners := t[k].owners - OwnerSet(owner)) == t[k]
    {
      assert t[k].owners - OwnerSet(owner) == t[k].owners;
    }
  }

  /** Clearing an owner is releasing each of its keys, in whatever order. */
  lemma {:induction false} ClearIsReleaseEach(t: Table, keys: seq<BpKey>, owner: int)
    requires forall k :: k in t && !(t[k].owners !! OwnerSet(owner)) ==> k in keys
    ensures ReleaseEach(t, keys, owner) == ReleasedEverywhere(t, owner)
    decreases |keys|
  {
    if keys == [] {
      NothingToRelease(t, owner);
    } else {
      var next := Released(t, keys[0], owner);
      ReleasedTwice(t, keys[0], owner);
      forall k | k in next && !(next[k].owners !! OwnerSet(owner))
        ensures k in keys[1..]
      {
        assert k in t && k != keys[0] && k in keys;
      }
      ClearIsReleaseEach(next, keys[1..], owner);
    }
  }

  // ---- Nobody's breakpoints ----------------------------------------------------------

  datatype TableOp =
    | Add(key: BpKey, owner: int)
    | Remove(key: BpKey, owner: int)
    | ClearOwner(owner: int)
    | Delete(key: BpKey)
    | Toggle(key: BpKey, owner: int)
    | Enable(key: BpKey, on: bool)
    | ClearAll

  function Apply(t: Table, op: TableOp): Table {
    match op
    case Add(key, owner) => Claimed(t, key, owner)
    case Remove(key, owner) => Released(t, key, owner)
    case ClearOwner(owner) => ReleasedEverywhere(t, owner)
    case Delete(key) => t - {key}
    case Toggle(key, owner) => if key in t then t - {key} else Claimed(t, key, owner)
    case Enable(key, on) => if key in t then t[key := t[key].(enabled := on)] else t
    case ClearAll => map[]
  }

  /** Every entry is there because somebody real asked for it. */
  ghost predicate Owned(t: Table) {
    forall k :: k in t ==> t[k].owners != {}
  }

  /** Creates an entry on behalf of nobody. */
  predicate Orphans(t: Table, op: TableOp) {
    (op.Add? || op.Toggle?) && op.key !in t && OwnerSet(op.owner) == {}
  }

  /** An operation keeps every entry owned exactly when it does not create one for a
      number that is not an owner. */
  lemma OwnedKept(t: Table, op: TableOp)
    requires Owned(t)
    ensures Owned(Apply(t, op)) <==> !Orphans(t, op)
  {
    var after := Apply(t, op);
    if Orphans(t, op) {
      assert op.key in after && after[op.key].owners == {};
    } else if op.ClearOwner? {
      forall k | k in after
        ensures after[k].owners != {}
      {
        assert k in t && t[k].owners != {};
        assert !(t[k].owners <= OwnerSet(op.owner));
      }
    } else if op.Remove? && op.key in after {
      assert t[op.key].owners != {};
    }
  }

  // ---- One arrival ---------------------------------------------------------------------

  predicate Counts(gen2: bool, b: Breakpoint, infos: map<BpKey, Info>, m: Cpu) {
    Matches(gen2, b, m) && Satisfied(InfoOf(infos, b.key), m)
  }

  predicate Fires(gen2: bool, b: Breakpoint, infos: map<BpKey, Info>, m: Cpu) {
    Counts(gen2, b, infos, m) && InfoOf(infos, b.key).hits >= InfoOf(infos, b.key).ignoring
  }

  function Bumped(i: Info, counted: bool): Info {
    if counted then i.(hits := i.hits + 1) else i
  }

  /** Only entries reached by the scan can change, and then only their records. */
  lemma {:induction false} ArriveElsewhere(gen2: bool, bps: seq<Breakpoint>, infos: map<BpKey, Info>,
                                          m: Cpu, key: BpKey)
    requires forall j :: 0 <= j < |bps| ==> bps[j].key != key
    ensures InfoOf(Arrive(gen2, bps, infos, m).infos, key) == InfoOf(infos, key)
  {
    if bps != [] {
      var b := bps[0];
      var info := InfoOf(infos, b.key);
      ArriveElsewhere(gen2, bps[1..], infos, m, key);
      ArriveElsewhere(gen2, bps[1..], infos[b.key := info], m, key);
      ArriveElsewhere(gen2, bps[1..], infos[b.key := Bumped(info, true)], m, key);
    }
  }

  /** The first entry that fires, or the length of the table. */
  function FirstFiring(gen2: bool, bps: seq<Breakpoint>, infos: map<BpKey, Info>, m: Cpu): (i: nat)
    ensures i <= |bps|
    ensures i < |bps| ==> Fires(gen2, bps[i], infos, m)
    ensures forall j :: 0 <= j < i ==> !Fires(gen2, bps[j], infos, m)
  {
    if bps == [] || Fires(gen2, bps[0], infos, m) then 0 else 1 + FirstFiring(gen2, bps[1..], infos, m)
  }

  /** The scan depends on the records only at the keys it visits. */
  lemma {:induction false} FirstFiringSame(gen2: bool, bps: seq<Breakpoint>, x: map<BpKey, Info>,
                                          y: map<BpKey, Info>, m: Cpu)
    requires forall j :: 0 <= j < |bps| ==> InfoOf(x, bps[j].key) == InfoOf(y, bps[j].key)
    ensures FirstFiring(gen2, bps, x, m) == FirstFiring(gen2, bps, y, m)
  {
    if bps != [] {
      assert InfoOf(x, bps[0].key) == InfoOf(y, bps[0].key);
      FirstFiringSame(gen2, bps[1..], x, y, m);
    }
  }

  /** The records the rest of the scan starts from, once the first entry has not fired. */
  function Visited(gen2: bool, b: Breakpoint, infos: map<BpKey, Info>, m: Cpu): map<BpKey, Info> {
    if Matches(gen2, b, m)
    then infos[b.key := Bumped(InfoOf(infos, b.key), Counts(gen2, b, infos, m))]
    else infos
  }

  lemma ArriveUnfolds(gen2: bool, bps: seq<Breakpoint>, infos: map<BpKey, Info>, m: Cpu)
    requires bps != []
    ensures var next := Visited(gen2, bps[0], infos, m);
            Arrive(gen2, bps, infos, m) ==
            if Fires(gen2, bps[0], infos, m) then Arrival(next, true) else Arrive(gen2, bps[1..], next, m)
  {
  }

  /** The machine stops exactly when some entry fires. */
  lemma {:induction false} ArriveStops(gen2: bool, bps: seq<Breakpoint>, infos: map<BpKey, Info>, m: Cpu)
    requires Unique(bps)
    ensures Arrive(gen2, bps, infos, m).stop <==> FirstFiring(gen2, bps, infos, m) < |bps|
  {
    if bps != [] {
      var next := Visited(gen2, bps[0], infos, m);
      ArriveUnfolds(gen2, bps, infos, m);
      if !Fires(gen2, bps[0], infos, m) {
        FirstFiringSame(gen2, bps[1..], infos, next, m);
        ArriveStops(gen2, bps[1..], next, m);
      }
    }
  }

  /** Every entry that matches with its condition satisfied is counted once, up to and
      including the first that fires. */
  lemma {:induction false} ArriveCounts(gen2: bool, bps: seq<Breakpoint>, infos: map<BpKey, Info>, m: Cpu, i: nat)
    requires Unique(bps) && i < |bps|
    ensures InfoOf(Arrive(gen2, bps, infos, m).infos, bps[i].key) ==
            Bumped(InfoOf(infos, bps[i].key),
                   i <= FirstFiring(gen2, bps, infos, m) && Counts(gen2, bps[i], infos, m))
    decreases |bps|
  {
    var next := Visited(gen2, bps[0], infos, m);
    ArriveUnfolds(gen2, bps, infos, m);
    if i == 0 {
      ArriveElsewhere(gen2, bps[1..], next, m, bps[0].key);
    } else if !Fires(gen2, bps[0], infos, m) {
      FirstFiringSame(gen2, bps[1..], infos, next, m);
      var b := bps[1..][i-1];
      assert b == bps[i] && InfoOf(next, b.key) == InfoOf(infos, b.key);
      ArriveCounts(gen2, bps[1..], next, m, i - 1);
    }
  }

  /** A lone breakpoint with ignore count `n` stops from its (n+1)th satisfied arrival on. */
  lemma IgnoreBudget(gen2: bool, b: Breakpoint, infos: map<BpKey, Info>, m: Cpu)
    requires Counts(gen2, b, infos, m)
    ensures var i, a := InfoOf(infos, b.key), Arrive(gen2, [b], infos, m);
            InfoOf(a.infos, b.key).hits == i.hits + 1 && (a.stop <==> i.hits + 1 > i.ignoring)
  {
    ArriveCounts(gen2, [b], infos, m, 0);
    ArriveStops(gen2, [b], infos, m);
  }
}
