/**
 What a source lookup prefers, told from the bank, the kind of line and the span alone.
 */
module LookupOrder {
  import opened DbgLookup

  /** An address of banked memory, looked up as of a known bank. */
  predicate InBank(addr: nat, ram: int) {
    ram >= 0 && 0xA000 <= addr < 0xC000
  }

  /** The entry's segment is in this bank, or the bank does not matter. */
  predicate Ours(t: Tables, e: Entry, addr: nat, ram: int) {
    !InBank(addr, ram) || t.bankOf(e.seg) == ram
  }

  /** An entry is a candidate when it covers the address and is not known to be of another bank. */
  lemma CandidatesAre(t: Tables, e: Entry, addr: nat, ram: int)
    ensures Eligible(t, e, addr, ram) <==>
              e.addr <= addr <= e.end && (Ours(t, e, addr, ram) || t.bankOf(e.seg) < 0)
    ensures Eligible(t, e, addr, ram) <==> Covers(e, addr) && BankOk(t, e, addr, ram)
  {
  }

  /** A line of a high-level language rather than of a macro, and of a macro rather than any other. */
  predicate BetterKind(a: Entry, b: Entry) {
    (a.kind == 1 && b.kind != 1) || (a.kind == 2 && b.kind != 1 && b.kind != 2)
  }

  /** Of two candidates the one known to be ours is preferred; then the better kind of line; then the
      shorter span. Where there are no high-level lines, the one that ends first. */
  lemma PreferenceIs(t: Tables, a: Entry, b: Entry, addr: nat, ram: int)
    requires Eligible(t, a, addr, ram) && Eligible(t, b, addr, ram)
    ensures var surer, less := Ours(t, a, addr, ram) && !Ours(t, b, addr, ram),
                               Ours(t, b, addr, ram) && !Ours(t, a, addr, ram);
            && (Beats(t, a, b, addr, ram) <==>
                  surer || (!less && (BetterKind(a, b)
                                      || (!BetterKind(b, a) && a.end - a.addr < b.end - b.addr))))
            && (BeatsAtStart(t, a, b, addr, ram) <==> surer || (!less && a.end < b.end))
  {
  }

  /** A choice is reported when its file is there: as resolved if it is ours, and otherwise as a guess. */
  lemma ReportIs(t: Tables, addr: nat, ram: int, e: Entry)
    requires Eligible(t, e, addr, ram)
    ensures Report(t, addr, ram, e) ==
            if !t.hasFile(e.file) then NoMatch else if Ours(t, e, addr, ram) then Resolved(e) else Unknown(e)
  {
  }

  /** The walk and the choice look 256 bytes back. */
  lemma HorizonIs(t: Tables, addr: nat, i: int)
    requires 0 <= i < |t.spans|
    ensures Near(t.spans[i], addr) <==> addr - t.spans[i].addr <= 256
    ensures Walked(t.spans, addr, i) <==>
              t.spans[i].addr <= addr && (i + 1 < |t.spans| ==> addr - t.spans[i+1].addr <= 256)
  {
  }
}
