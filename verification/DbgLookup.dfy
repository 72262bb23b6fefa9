/**
 Which source line an address belongs to: a binary search in the sorted map of spans, a
 walk back to one that covers the address, and a choice among its rivals by how sure we
 are of the bank, what kind of line it is, and how tight its span is. A segment's bank is
 negative while unknown; a file may be missing.
 */
module DbgLookup {
  const KIND_EXT: int := 1
  const KIND_MACRO: int := 2
  const HORIZON: nat := 256

  datatype Entry = Entry(addr: nat, end: nat, file: int, line: int, kind: int, seg: int)

  datatype Tables = Tables(spans: seq<Entry>, bankOf: int -> int, hasFile: int -> bool, highLevel: bool)

  datatype Answer = NoMatch | Unknown(e: Entry) | Resolved(e: Entry)

  /** Sorted by start, then end, as the map is built; no span ends before it starts. */
  ghost predicate Sorted(s: seq<Entry>) {
    (forall i :: 0 <= i < |s| ==> s[i].addr <= s[i].end)
    && forall i, j :: 0 <= i < j < |s| ==>
         s[i].addr <= s[j].addr && (s[i].addr == s[j].addr ==> s[i].end <= s[j].end)
  }

  predicate Banked(addr: nat, ram: int) {
    ram >= 0 && 0xA000 <= addr <= 0xBFFF
  }

  predicate BankOk(t: Tables, e: Entry, addr: nat, ram: int) {
    !Banked(addr, ram) || t.bankOf(e.seg) < 0 || t.bankOf(e.seg) == ram
  }

  /** Known to be ours, perhaps ours, known not to be. */
  function BankRank(t: Tables, e: Entry, addr: nat, ram: int): nat {
    if !Banked(addr, ram) then 2
    else if t.bankOf(e.seg) < 0 then 1
    else if t.bankOf(e.seg) == ram then 2 else 0
  }

  function SourceRank(e: Entry): nat {
    if e.kind == KIND_EXT then 3 else if e.kind == KIND_MACRO then 2 else 1
  }

  predicate Covers(e: Entry, addr: nat) {
    e.addr <= addr <= e.end
  }

  /** Could this entry be the answer? */
  predicate Eligible(t: Tables, e: Entry, addr: nat, ram: int) {
    Covers(e, addr) && BankRank(t, e, addr, ram) > 0
  }

  // ---- Finding a covering entry -----------------------------------------------------

  /** `best` is the last entry starting at or below `addr`; -1 when there is none. */
  ghost predicate LastAtOrBelow(s: seq<Entry>, addr: nat, best: int) {
    -1 <= best < |s|
    && (forall i :: 0 <= i <= best ==> s[i].addr <= addr)
    && forall i :: best < i < |s| ==> s[i].addr > addr
  }

  method FindLast(s: seq<Entry>, addr: nat) returns (best: int)
    requires Sorted(s)
    ensures LastAtOrBelow(s, addr, best)
  {
    var lo, hi := 0, |s| - 1;
    best := -1;
    while lo <= hi
      invariant 0 <= lo <= |s| && -1 <= hi < |s| && lo <= hi + 1 && best == lo - 1
      invariant forall i :: 0 <= i < lo ==> s[i].addr <= addr
      invariant forall i :: hi < i < |s| ==> s[i].addr > addr
      decreases hi - lo
    {
      var mid := lo + (hi - lo) / 2;
      if s[mid].addr <= addr {
        best := mid;
        lo := mid + 1;
      } else {
        hi := mid - 1;
      }
    }
  }

  /** The walk back looks at `i`: nothing it passed started too far below `addr`. */
  predicate Walked(s: seq<Entry>, addr: nat, i: int) {
    0 <= i < |s| && s[i].addr <= addr && (i + 1 == |s| || s[i+1].addr + HORIZON >= addr)
  }

  ghost predicate AnyEligible(t: Tables, addr: nat, ram: int) {
    exists i :: Walked(t.spans, addr, i) && Eligible(t, t.spans[i], addr, ram)
  }

  /** The last eligible entry on the walk. */
  ghost predicate NearestEligible(t: Tables, addr: nat, ram: int, found: int) {
    Walked(t.spans, addr, found) && Eligible(t, t.spans[found], addr, ram)
    && forall i :: found < i && Walked(t.spans, addr, i) ==> !Eligible(t, t.spans[i], addr, ram)
  }

  method WalkBack(t: Tables, addr: nat, ram: int, best: int) returns (found: int)
    requires Sorted(t.spans) && LastAtOrBelow(t.spans, addr, best) && best >= 0
    ensures found >= -1 && (found >= 0 <==> AnyEligible(t, addr, ram))
    ensures found >= 0 ==> NearestEligible(t, addr, ram, found)
  {
    var i := best;
    while i >= 0
      invariant -1 <= i <= best && (i >= 0 ==> Walked(t.spans, addr, i))
      invariant forall j :: i < j <= best ==> !Eligible(t, t.spans[j], addr, ram)
    {
      if addr <= t.spans[i].end && BankOk(t, t.spans[i], addr, ram) {
        return i;
      }
      if t.spans[i].addr + HORIZON < addr {
        return -1;
      }
      i := i - 1;
    }
    found := -1;
  }

  // ---- Choosing among the rivals ------------------------------------------------------

  /** With high-level lines: surer of the bank, then the better kind, then the tighter span. */
  predicate Beats(t: Tables, a: Entry, b: Entry, addr: nat, ram: int) {
    var ra, rb := BankRank(t, a, addr, ram), BankRank(t, b, addr, ram);
    ra > rb
    || (ra == rb && SourceRank(a) > SourceRank(b))
    || (ra == rb && SourceRank(a) == SourceRank(b) && Length(a) < Length(b))
  }

  function Length(e: Entry): int {
    e.end - e.addr
  }

  /** Without: surer of the bank, then the earlier end. */
  predicate BeatsAtStart(t: Tables, a: Entry, b: Entry, addr: nat, ram: int) {
    var ra, rb := BankRank(t, a, addr, ram), BankRank(t, b, addr, ram);
    ra > rb || (ra == rb && a.end < b.end)
  }

  predicate Near(e: Entry, addr: nat) {
    e.addr + HORIZON >= addr
  }

  /** The best of every eligible entry that starts within the horizon; one that starts beyond
      it is chosen only when there is none. */
  ghost predicate BestNear(t: Tables, addr: nat, ram: int, pick: int) {
    0 <= pick < |t.spans| && Eligible(t, t.spans[pick], addr, ram)
    && forall i :: 0 <= i < |t.spans| && Near(t.spans[i], addr) && Eligible(t, t.spans[i], addr, ram)
         ==> Near(t.spans[pick], addr) && !Beats(t, t.spans[i], t.spans[pick], addr, ram)
  }

  /** The best of every eligible entry with the nearest start that has one. */
  ghost predicate BestAtStart(t: Tables, addr: nat, ram: int, pick: int) {
    0 <= pick < |t.spans| && Eligible(t, t.spans[pick], addr, ram)
    && (forall i :: Walked(t.spans, addr, i) && Eligible(t, t.spans[i], addr, ram)
          ==> t.spans[i].addr <= t.spans[pick].addr)
    && forall i :: 0 <= i < |t.spans| && t.spans[i].addr == t.spans[pick].addr && Eligible(t, t.spans[i], addr, ram)
         ==> !BeatsAtStart(t, t.spans[i], t.spans[pick], addr, ram)
  }

  /** The run of entries that start where `found` does. */
  method SameStart(s: seq<Entry>, found: int) returns (lo: int, hi: int)
    requires Sorted(s) && 0 <= found < |s|
    ensures 0 <= lo <= found <= hi < |s|
    ensures forall i :: 0 <= i < |s| ==> (s[i].addr == s[found].addr <==> lo <= i <= hi)
  {
    var start := s[found].addr;
    lo, hi := found, found;
    while lo > 0 && s[lo-1].addr == start
      invariant 0 <= lo <= found && s[lo].addr == start
    {
      lo := lo - 1;
    }
    while hi + 1 < |s| && s[hi+1].addr == start
      invariant found <= hi < |s| && s[hi].addr == start
    {
      hi := hi + 1;
    }
  }

  method SelectAtStart(t: Tables, addr: nat, ram: int, found: int) returns (pick: int)
    requires Sorted(t.spans) && NearestEligible(t, addr, ram, found)
    ensures BestAtStart(t, addr, ram, pick)
  {
    var lo, hi := SameStart(t.spans, found);
    pick := found;
    var i := lo;
    while i <= hi
      invariant lo <= i <= hi + 1 && lo <= pick <= hi && Eligible(t, t.spans[pick], addr, ram)
      invariant forall j :: lo <= j < i && Eligible(t, t.spans[j], addr, ram)
                  ==> !BeatsAtStart(t, t.spans[j], t.spans[pick], addr, ram)
    {
      if addr <= t.spans[i].end && BankRank(t, t.spans[i], addr, ram) != 0
         && BeatsAtStart(t, t.spans[i], t.spans[pick], addr, ram) {
        pick := i;
      }
      i := i + 1;
    }
    NearestStart(t, addr, ram, found, pick);
  }

  lemma NearestStart(t: Tables, addr: nat, ram: int, found: int, pick: int)
    requires Sorted(t.spans) && NearestEligible(t, addr, ram, found)
    requires 0 <= pick < |t.spans| && t.spans[pick].addr == t.spans[found].addr
    ensures forall i :: Walked(t.spans, addr, i) && Eligible(t, t.spans[i], addr, ram)
              ==> t.spans[i].addr <= t.spans[pick].addr
  {
  }

  /** Back from `found` as far as entries start within the horizon. */
  method HorizonFrom(t: Tables, addr: nat, ram: int, best: int, found: int) returns (lo: int)
    requires Sorted(t.spans) && LastAtOrBelow(t.spans, addr, best) && NearestEligible(t, addr, ram, found)
    ensures 0 <= lo <= found
    ensures forall i :: 0 <= i < |t.spans| && Near(t.spans[i], addr) && Eligible(t, t.spans[i], addr, ram)
              ==> lo <= i <= best && Near(t.spans[lo], addr)
  {
    lo := found;
    while lo > 0 && t.spans[lo-1].addr + HORIZON >= addr
      invariant 0 <= lo <= found && (lo < found ==> Near(t.spans[lo], addr))
    {
      lo := lo - 1;
    }
    forall i | 0 <= i < |t.spans| && Near(t.spans[i], addr) && Eligible(t, t.spans[i], addr, ram)
      ensures lo <= i <= best && Near(t.spans[lo], addr)
    {
      NearWalked(t, addr, ram, found, i);
    }
  }

  lemma NearWalked(t: Tables, addr: nat, ram: int, found: int, i: int)
    requires Sorted(t.spans) && NearestEligible(t, addr, ram, found)
    requires 0 <= i < |t.spans| && Near(t.spans[i], addr) && Eligible(t, t.spans[i], addr, ram)
    ensures i <= found && Near(t.spans[found], addr)
  {
    assert Walked(t.spans, addr, i);
  }

  method SelectNear(t: Tables, addr: nat, ram: int, best: int, found: int) returns (pick: int)
    requires Sorted(t.spans) && LastAtOrBelow(t.spans, addr, best) && NearestEligible(t, addr, ram, found)
    ensures BestNear(t, addr, ram, pick)
  {
    var lo := HorizonFrom(t, addr, ram, best, found);
    pick := found;
    var i := lo;
    while i <= best
      invariant lo <= i <= best + 1 && lo <= pick <= best && Eligible(t, t.spans[pick], addr, ram)
      invariant forall j :: lo <= j < i && Eligible(t, t.spans[j], addr, ram)
                  ==> !Beats(t, t.spans[j], t.spans[pick], addr, ram)
    {
      if t.spans[i].addr <= addr <= t.spans[i].end && BankRank(t, t.spans[i], addr, ram) != 0
         && Beats(t, t.spans[i], t.spans[pick], addr, ram) {
        NotBeatenBy(t, addr, ram, lo, i, pick);
        pick := i;
      }
      i := i + 1;
    }
    assert t.spans[lo].addr <= t.spans[pick].addr;
  }

  /** What did not beat the old choice does not beat the one that did. */
  lemma NotBeatenBy(t: Tables, addr: nat, ram: int, lo: int, i: int, pick: int)
    requires 0 <= lo <= i < |t.spans| && 0 <= pick < |t.spans|
    requires Beats(t, t.spans[i], t.spans[pick], addr, ram)
    requires forall j :: lo <= j < i && Eligible(t, t.spans[j], addr, ram)
               ==> !Beats(t, t.spans[j], t.spans[pick], addr, ram)
    ensures forall j :: lo <= j <= i && Eligible(t, t.spans[j], addr, ram)
              ==> !Beats(t, t.spans[j], t.spans[i], addr, ram)
  {
  }

  // ---- The lookup --------------------------------------------------------------------

  ghost predicate Chosen(t: Tables, addr: nat, ram: int, pick: int) {
    0 <= pick < |t.spans| && Eligible(t, t.spans[pick], addr, ram)
    && (if t.highLevel then BestNear(t, addr, ram, pick) else BestAtStart(t, addr, ram, pick))
  }

  method Choose(t: Tables, addr: nat, ram: int) returns (pick: int)
    requires Sorted(t.spans)
    ensures pick == -1 <==> !AnyEligible(t, addr, ram)
    ensures pick != -1 ==> Chosen(t, addr, ram, pick)
  {
    var best := FindLast(t.spans, addr);
    if best < 0 {
      return -1;
    }
    var found := WalkBack(t, addr, ram, best);
    if found < 0 {
      return -1;
    }
    if t.highLevel {
      pick := SelectNear(t, addr, ram, best, found);
    } else {
      pick := SelectAtStart(t, addr, ram, found);
    }
  }

  /** What a choice amounts to once its file has been looked for. */
  function Report(t: Tables, addr: nat, ram: int, e: Entry): Answer {
    if !t.hasFile(e.file) then NoMatch
    else if Banked(addr, ram) && t.bankOf(e.seg) < 0 then Unknown(e)
    else Resolved(e)
  }

  /** An answer from this bank if the walk has one, otherwise a guess from any bank. */
  method Lookup(t: Tables, addr: nat, ram: int) returns (ans: Answer, pick: int)
    requires Sorted(t.spans)
    ensures AnyEligible(t, addr, ram) ==>
              Chosen(t, addr, ram, pick) && ans == Report(t, addr, ram, t.spans[pick])
    ensures !AnyEligible(t, addr, ram) && ram >= 0 && AnyEligible(t, addr, -1) ==>
              Chosen(t, addr, -1, pick)
              && ans == if t.hasFile(t.spans[pick].file) then Unknown(t.spans[pick]) else NoMatch
    ensures !AnyEligible(t, addr, ram) && (ram < 0 || !AnyEligible(t, addr, -1)) ==> ans == NoMatch && pick == -1
    decreases ram
  {
    pick := Choose(t, addr, ram);
    if pick < 0 {
      if ram < 0 {
        return NoMatch, -1;
      }
      ans, pick := Lookup(t, addr, -1);
      match ans
      case Resolved(e) => ans := Unknown(e);
      case Unknown(e) =>
      case NoMatch =>
    } else {
      ans := Report(t, addr, ram, t.spans[pick]);
    }
  }

  /** A resolved answer for a banked address never comes from another bank's segment. */
  lemma ResolvedIsOurs(t: Tables, addr: nat, ram: int, pick: int)
    requires Banked(addr, ram) && Chosen(t, addr, ram, pick) && Report(t, addr, ram, t.spans[pick]).Resolved?
    ensures t.bankOf(t.spans[pick].seg) == ram
  {
  }

  /** The walk reaches every covering entry that starts within the horizon, so such an entry is
      never lost; one that starts further back is found only if the walk happens to end on it. */
  lemma HorizonReaches(t: Tables, addr: nat, ram: int, i: int)
    requires Sorted(t.spans) && 0 <= i < |t.spans| && Eligible(t, t.spans[i], addr, ram)
    ensures Walked(t.spans, addr, i) <==>
            forall j :: i < j < |t.spans| ==> t.spans[j].addr + HORIZON >= addr
    ensures Near(t.spans[i], addr) ==> AnyEligible(t, addr, ram)
  {
    if Near(t.spans[i], addr) {
      assert Walked(t.spans, addr, i);
    }
  }

  /** The choice is a function of the spans, not of how equals happened to be ordered: any two
      choices with high-level lines agree on bank confidence, kind and length. */
  lemma ChoiceIsDetermined(t: Tables, addr: nat, ram: int, a: int, b: int)
    requires Sorted(t.spans) && t.highLevel && Chosen(t, addr, ram, a) && Chosen(t, addr, ram, b)
    requires Near(t.spans[a], addr)
    ensures Near(t.spans[b], addr)
    ensures BankRank(t, t.spans[a], addr, ram) == BankRank(t, t.spans[b], addr, ram)
    ensures SourceRank(t.spans[a]) == SourceRank(t.spans[b]) && Length(t.spans[a]) == Length(t.spans[b])
  {
    assert !Beats(t, t.spans[a], t.spans[b], addr, ram);
    assert !Beats(t, t.spans[b], t.spans[a], addr, ram);
  }
}
