/**
 Which RAM bank a segment of banked memory lives in: inferred from named constants such as
 RAM_BANK_CODE, or observed when a file is loaded. The inference depends on the sets of
 segments and constants alone, never on the order they were parsed in.
 */
module BankSeeding {
  const NAME_MAX: nat := 128

  datatype Seg = Seg(start: nat, size: nat, name: string, owner: int, bank: int, fromEqu: bool)

  type BankNumber = b: int | 0 <= b <= 255

  datatype Equ = Equ(name: string, bank: BankNumber, owner: int)

  // ---- Names ---------------------------------------------------------------------------

  function Upper(c: char): char {
    if 'a' <= c <= 'z' then (c as int - 32) as char else c
  }

  /** Upper case, underscores dropped. */
  function Squashed(s: string): string {
    if s == [] then []
    else if s[0] == '_' then Squashed(s[1..])
    else [Upper(s[0])] + Squashed(s[1..])
  }

  /** The squashed name, or empty when it is too long to be trusted. */
  function Squash(s: string): string {
    if |Squashed(s)| < NAME_MAX then Squashed(s) else ""
  }

  /** The segment a bank constant is talking about, or empty when it is not one. */
  function Target(name: string): string {
    var n := |name|;
    var body :=
      if "RAM_BANK_" <= name then name[9..]
      else if "BANK_" <= name then name[5..]
      else if n > 5 && name[n-5..] == "_BANK" then name[..n-5]
      else "";
    if |body| < NAME_MAX then Squash(body) else ""
  }

  // ---- Ranks -----------------------------------------------------------------------------

  /** Own-exact, other-exact, own-prefix, other-prefix. */
  const RANKS: nat := 4

  /** How good a match the constant is for the segment; `RANKS` when it is none. */
  function Rank(s: Seg, e: Equ): (r: nat)
    ensures r <= RANKS
  {
    var have, want := Squash(s.name), Target(e.name);
    var own := e.owner == s.owner;
    if want == "" then RANKS
    else if have == want then if own then 0 else 1
    else
      var n := if |have| < |want| then |have| else |want|;
      if n < 4 || have[..n] != want[..n] then RANKS else if own then 2 else 3
  }

  /** Would seeding look for this segment's bank? */
  predicate Seedable(s: Seg) {
    s.bank < 0 && s.name != "" && s.size != 0 && 0xA000 <= s.start <= 0xBFFF && Squash(s.name) != ""
  }

  // ---- The verdict, on the set of constants ------------------------------------------------

  ghost function BanksAt(s: Seg, E: set<Equ>, r: nat): set<int> {
    set e | e in E && Rank(s, e) == r :: e.bank
  }

  /** The best rank that has a candidate; `RANKS` when none has. */
  ghost function BestRank(s: Seg, E: set<Equ>, from: nat): (r: nat)
    requires from <= RANKS
    ensures from <= r <= RANKS
    ensures forall k :: from <= k < r ==> BanksAt(s, E, k) == {}
    ensures r < RANKS ==> BanksAt(s, E, r) != {}
    decreases RANKS - from
  {
    if from == RANKS || BanksAt(s, E, from) != {} then from else BestRank(s, E, from + 1)
  }

  /** The one bank every candidate names, or -1. */
  ghost function Agreed(banks: set<int>): int {
    if exists b :: banks == {b} then var b :| banks == {b}; b else -1
  }

  ghost function Verdict(s: Seg, E: set<Equ>): int {
    var r := BestRank(s, E, 0);
    if r == RANKS then -1 else Agreed(BanksAt(s, E, r))
  }

  /** Inferences are forgotten before they are made again. */
  function Unseeded(s: Seg): Seg {
    if s.fromEqu then s.(bank := -1, fromEqu := false) else s
  }

  ghost function Seeded(s: Seg, E: set<Equ>): Seg {
    var u := Unseeded(s);
    if Seedable(u) && Verdict(u, E) != -1 then u.(bank := Verdict(u, E), fromEqu := true) else u
  }

  ghost function AllSeeded(segs: seq<Seg>, E: set<Equ>): seq<Seg> {
    seq(|segs|, i requires 0 <= i < |segs| => Seeded(segs[i], E))
  }

  ghost function SetOf(equs: seq<Equ>): set<Equ> {
    set e | e in equs
  }

  // ---- Seeding -----------------------------------------------------------------------

  lemma BanksOneMore(s: Seg, equs: seq<Equ>, b: nat, r: nat)
    requires b < |equs|
    ensures BanksAt(s, SetOf(equs[..b+1]), r) ==
            BanksAt(s, SetOf(equs[..b]), r) + if Rank(s, equs[b]) == r then {equs[b].bank as int} else {}
  {
    assert equs[..b+1] == equs[..b] + [equs[b]];
    var E := SetOf(equs[..b]);
    assert SetOf(equs[..b+1]) == E + {equs[b]};
  }

  /** What is known of a rank: its first candidate, and whether another names a different bank. */
  datatype Found = Found(bank: int, ambiguous: bool)

  ghost predicate Tracks(f: Found, banks: set<int>) {
    if f.bank < 0 then banks == {} && f.bank == -1
    else f.bank in banks && (f.ambiguous <==> banks != {f.bank})
  }

  function Noted(f: Found, bank: BankNumber): Found {
    if f.bank < 0 then Found(bank, false)
    else if f.bank != bank then f.(ambiguous := true)
    else f
  }

  lemma NotedTracks(f: Found, banks: set<int>, bank: BankNumber)
    requires Tracks(f, banks)
    ensures Tracks(Noted(f, bank), banks + {bank as int})
  {
    if f.bank >= 0 && f.bank != bank {
      assert bank as int in banks + {bank as int};
      assert banks + {bank as int} != {f.bank};
    } else if f.bank >= 0 {
      assert banks + {bank as int} == banks;
    }
  }

  lemma AgreedOne(banks: set<int>, b: int)
    requires banks == {b}
    ensures Agreed(banks) == b
  {
    assert Agreed(banks) in banks;
  }

  lemma AgreedNone(banks: set<int>, b: int)
    requires b in banks && banks != {b}
    ensures Agreed(banks) == -1
  {
  }

  lemma AgreedIs(f: Found, banks: set<int>)
    requires Tracks(f, banks) && f.bank >= 0
    ensures Agreed(banks) == if f.ambiguous then -1 else f.bank
  {
    if !f.ambiguous {
      AgreedOne(banks, f.bank);
    } else {
      AgreedNone(banks, f.bank);
    }
  }

  /** The candidates of each rank, gathered over the constants in any order. */
  method Gather(s: Seg, equs: seq<Equ>) returns (found: seq<Found>)
    ensures |found| == RANKS
    ensures forall r :: 0 <= r < RANKS ==> Tracks(found[r], BanksAt(s, SetOf(equs), r))
  {
    found := [Found(-1, false), Found(-1, false), Found(-1, false), Found(-1, false)];
    var b := 0;
    while b < |equs|
      invariant b <= |equs| && |found| == RANKS
      invariant forall r :: 0 <= r < RANKS ==> Tracks(found[r], BanksAt(s, SetOf(equs[..b]), r))
    {
      var rank := Rank(s, equs[b]);
      forall r | 0 <= r < RANKS
        ensures Tracks(if r == rank then Noted(found[r], equs[b].bank) else found[r],
                       BanksAt(s, SetOf(equs[..b+1]), r))
      {
        BanksOneMore(s, equs, b, r);
        NotedTracks(found[r], BanksAt(s, SetOf(equs[..b]), r), equs[b].bank);
      }
      if rank < RANKS {
        found := found[rank := Noted(found[rank], equs[b].bank)];
      }
      b := b + 1;
    }
    assert equs[..b] == equs;
  }

  lemma BestRankIs(s: Seg, E: set<Equ>, from: nat, r: nat)
    requires from <= r <= RANKS
    requires forall k :: from <= k < r ==> BanksAt(s, E, k) == {}
    requires r < RANKS ==> BanksAt(s, E, r) != {}
    ensures BestRank(s, E, from) == r
  {
  }

  /** The best kind of match decides alone; when its candidates disagree the bank stays unknown. */
  method Infer(s: Seg, equs: seq<Equ>) returns (bank: int)
    ensures bank == Verdict(s, SetOf(equs))
  {
    var found := Gather(s, equs);
    var r := 0;
    while r < RANKS && found[r].bank < 0
      invariant r <= RANKS
      invariant forall k :: 0 <= k < r ==> BanksAt(s, SetOf(equs), k) == {}
    {
      r := r + 1;
    }
    BestRankIs(s, SetOf(equs), 0, r);
    if r == RANKS {
      return -1;
    }
    AgreedIs(found[r], BanksAt(s, SetOf(equs), r));
    bank := if found[r].ambiguous then -1 else found[r].bank;
  }

  /** One segment whose inferred bank has been forgotten, seeded from these constants. */
  method SeedOne(u: Seg, equs: seq<Equ>, ghost was: Seg) returns (s: Seg)
    requires u == Unseeded(was)
    ensures s == Seeded(was, SetOf(equs))
  {
    s := u;
    if Seedable(u) {
      var bank := Infer(u, equs);
      if bank != -1 {
        s := u.(bank := bank, fromEqu := true);
      }
    }
  }

  class SegmentTable {
    var segs: seq<Seg>
    var equs: seq<Equ>

    constructor ()
      ensures segs == [] && equs == []
    {
      segs, equs := [], [];
    }

    /** Forget every inferred bank. */
    method Unseed()
      modifies this`segs
      ensures |segs| == |old(segs)| && forall j :: 0 <= j < |segs| ==> segs[j] == Unseeded(old(segs)[j])
    {
      ghost var was := segs;
      var i := 0;
      while i < |segs|
        invariant i <= |segs| == |was|
        invariant forall j :: 0 <= j < |was| ==> segs[j] == if j < i then Unseeded(was[j]) else was[j]
      {
        if segs[i].fromEqu {
          segs := segs[i := segs[i].(bank := -1, fromEqu := false)];
        }
        i := i + 1;
      }
    }

    /** Re-derive every inferred bank from the constants there are now. */
    method SeedBanks()
      modifies this`segs
      ensures segs == AllSeeded(old(segs), SetOf(equs))
    {
      ghost var was := segs;
      Unseed();
      var i := 0;
      while i < |segs|
        invariant i <= |segs| == |was|
        invariant forall j :: 0 <= j < i ==> segs[j] == Seeded(was[j], SetOf(equs))
        invariant forall j :: i <= j < |was| ==> segs[j] == Unseeded(was[j])
      {
        var s := SeedOne(segs[i], equs, was[i]);
        segs := segs[i := s];
        i := i + 1;
      }
    }

    /** A file was loaded at `addr`: the one segment it can be, if it is only one, is in that bank. */
    method NoteBankLoad(addr: nat, size: nat, ram: BankNumber)
      modifies this`segs
      ensures segs == Observed(old(segs), addr, size, ram)
    {
      if addr < 0xA000 || addr > 0xBFFF || size == 0 {
        return;
      }
      var hit := -1;
      var i := 0;
      while i < |segs|
        invariant i <= |segs| && -1 <= hit < i
        invariant hit >= 0 ==> Blob(segs[hit], addr, size)
        invariant forall j :: 0 <= j < i && j != hit ==> !Blob(segs[j], addr, size)
      {
        if segs[i].size != 0 && segs[i].start == addr && (segs[i].size == size || segs[i].size + 2 == size) {
          if hit >= 0 {
            NotTheOnly(segs, addr, size, hit, i);
            return;
          }
          hit := i;
        }
        i := i + 1;
      }
      if hit >= 0 {
        segs := segs[hit := segs[hit].(bank := ram, fromEqu := false)];
      }
    }
  }

  // ---- Observations ---------------------------------------------------------------------

  /** Could a blob of this size, loaded here, be the segment? Its two-byte header may be counted. */
  predicate Blob(s: Seg, addr: nat, size: nat) {
    s.size != 0 && s.start == addr && (s.size == size || s.size + 2 == size)
  }

  predicate TheOnly(segs: seq<Seg>, addr: nat, size: nat, i: nat)
    requires i < |segs|
  {
    Blob(segs[i], addr, size) && forall j :: 0 <= j < |segs| && j != i ==> !Blob(segs[j], addr, size)
  }

  lemma NotTheOnly(segs: seq<Seg>, addr: nat, size: nat, i: nat, j: nat)
    requires i < j < |segs| && Blob(segs[i], addr, size) && Blob(segs[j], addr, size)
    ensures forall k :: 0 <= k < |segs| ==> !TheOnly(segs, addr, size, k)
  {
  }

  ghost function Observed(segs: seq<Seg>, addr: nat, size: nat, ram: BankNumber): seq<Seg> {
    seq(|segs|, i requires 0 <= i < |segs| =>
      if 0xA000 <= addr <= 0xBFFF && size != 0 && TheOnly(segs, addr, size, i)
      then segs[i].(bank := ram, fromEqu := false) else segs[i])
  }

  // ---- What seeding promises -----------------------------------------------------------

  /** The order constants were parsed in does not matter, and listing one twice does not either. */
  lemma OrderOfConstantsIrrelevant(segs: seq<Seg>, a: seq<Equ>, b: seq<Equ>)
    requires forall e :: e in a <==> e in b
    ensures AllSeeded(segs, SetOf(a)) == AllSeeded(segs, SetOf(b))
  {
    assert SetOf(a) == SetOf(b);
  }

  function Removed<T>(y: seq<T>, k: nat): seq<T>
    requires k < |y|
  {
    y[..k] + y[k+1..]
  }

  lemma Without<T>(y: seq<T>, k: nat)
    requires k < |y|
    ensures multiset(y) == multiset(Removed(y, k)) + multiset{y[k]}
  {
    assert y == y[..k] + [y[k]] + y[k+1..];
  }

  lemma Cancel<T>(a: multiset<T>, b: multiset<T>, x: T)
    requires a + multiset{x} == b + multiset{x}
    ensures a == b
  {
    assert a == (a + multiset{x}) - multiset{x};
    assert b == (b + multiset{x}) - multiset{x};
  }

  lemma SeededWithout(y: seq<Seg>, k: nat, E: set<Equ>)
    requires k < |y|
    ensures multiset(AllSeeded(y, E)) == multiset(AllSeeded(Removed(y, k), E)) + multiset{Seeded(y[k], E)}
  {
    var all := AllSeeded(y, E);
    Without(all, k);
    assert AllSeeded(Removed(y, k), E) == all[..k] + all[k+1..];
  }

  /** The first element of one sequence, found in another with the same elements. */
  lemma FirstFound<T>(x: seq<T>, y: seq<T>) returns (k: nat)
    requires multiset(x) == multiset(y) && x != []
    ensures k < |y| && y[k] == x[0] && multiset(Removed(x, 0)) == multiset(Removed(y, k))
  {
    assert x[0] in multiset(x);
    assert x[0] in y;
    k :| 0 <= k < |y| && y[k] == x[0];
    Without(x, 0);
    Without(y, k);
    Cancel(multiset(Removed(x, 0)), multiset(Removed(y, k)), x[0]);
  }

  /** Nor does the order of the segments: each one's bank follows it wherever it stands. */
  lemma {:induction false} OrderOfSegmentsIrrelevant(x: seq<Seg>, y: seq<Seg>, E: set<Equ>)
    requires multiset(x) == multiset(y)
    ensures multiset(AllSeeded(x, E)) == multiset(AllSeeded(y, E))
    decreases |x|
  {
    if x == [] {
      assert |y| == |multiset(y)| == 0;
      assert AllSeeded(x, E) == AllSeeded(y, E);
    } else {
      var k := FirstFound(x, y);
      OrderOfSegmentsIrrelevant(Removed(x, 0), Removed(y, k), E);
      SeededWithout(x, 0, E);
      SeededWithout(y, k, E);
    }
  }

  /** Every bank number is from 0 to 255, or -1. */
  ghost predicate Sound(s: Seg) {
    s.bank >= -1 && (s.fromEqu ==> s.bank >= 0)
  }

  lemma VerdictSound(s: Seg, E: set<Equ>)
    ensures Verdict(s, E) >= -1
  {
    var r := BestRank(s, E, 0);
    if r < RANKS {
      var banks := BanksAt(s, E, r);
      assert Agreed(banks) == -1 || Agreed(banks) in banks;
    }
  }

  /** Seeding leaves nothing behind: seeding again from other constants is as if the first
      seeding had never been. With the same constants, a second seeding changes nothing. */
  lemma SeedingForgets(s: Seg, E: set<Equ>, F: set<Equ>)
    requires Sound(s)
    ensures Sound(Seeded(s, E)) && Seeded(Seeded(s, E), F) == Seeded(s, F)
  {
    VerdictSound(Unseeded(s), E);
    SeededUndone(s, E);
  }

  lemma SeededUndone(s: Seg, E: set<Equ>)
    requires Sound(s)
    ensures Unseeded(Seeded(s, E)) == Unseeded(s)
  {
  }

  lemma AllSeedingForgets(segs: seq<Seg>, E: set<Equ>, F: set<Equ>)
    requires forall i :: 0 <= i < |segs| ==> Sound(segs[i])
    ensures AllSeeded(AllSeeded(segs, E), F) == AllSeeded(segs, F)
  {
    forall i | 0 <= i < |segs|
      ensures Seeded(Seeded(segs[i], E), F) == Seeded(segs[i], F)
    {
      SeedingForgets(segs[i], E, F);
    }
  }

  /** Seeded again and again, whatever constants there are each time. */
  ghost function Reseeded(segs: seq<Seg>, rounds: seq<set<Equ>>): (r: seq<Seg>)
    ensures |r| == |segs|
    decreases |rounds|
  {
    if rounds == [] then segs else Reseeded(AllSeeded(segs, rounds[0]), rounds[1..])
  }

  lemma {:induction false} ObservedStays(segs: seq<Seg>, rounds: seq<set<Equ>>, i: nat)
    requires i < |segs| && segs[i].bank >= 0 && !segs[i].fromEqu
    ensures Reseeded(segs, rounds)[i] == segs[i]
    decreases |rounds|
  {
    if rounds != [] {
      ObservedStays(AllSeeded(segs, rounds[0]), rounds[1..], i);
    }
  }

  /** A bank that was observed is never inferred away. */
  lemma ObservationWins(segs: seq<Seg>, addr: nat, size: nat, ram: BankNumber, rounds: seq<set<Equ>>, i: nat)
    requires 0xA000 <= addr <= 0xBFFF && size != 0 && i < |segs| && TheOnly(segs, addr, size, i)
    ensures Reseeded(Observed(segs, addr, size, ram), rounds)[i] == segs[i].(bank := ram, fromEqu := false)
  {
    ObservedStays(Observed(segs, addr, size, ram), rounds, i);
  }

  /** When a segment gets a bank: some rank has candidates, no better one has, and all of that
      rank name the bank. */
  ghost predicate AgreedAt(s: Seg, E: set<Equ>, r: nat, bank: int) {
    (exists e :: e in E && Rank(s, e) == r)
    && (forall e :: e in E && Rank(s, e) == r ==> e.bank == bank)
    && forall e :: e in E ==> Rank(s, e) >= r
  }

  lemma BankGivenExactly(s: Seg, E: set<Equ>, bank: BankNumber)
    ensures Verdict(s, E) == bank <==> exists r :: 0 <= r < RANKS && AgreedAt(s, E, r, bank)
  {
    var best := BestRank(s, E, 0);
    forall e | e in E
      ensures Rank(s, e) >= best
    {
      assert e.bank in BanksAt(s, E, Rank(s, e));
    }
    if best < RANKS {
      AgreedExactly(s, E, best, bank);
      assert Verdict(s, E) == bank ==> AgreedAt(s, E, best, bank);
    }
    forall r | 0 <= r < RANKS && AgreedAt(s, E, r, bank)
      ensures r == best
    {
      var e :| e in E && Rank(s, e) == r;
      assert e.bank in BanksAt(s, E, r);
    }
  }

  lemma AgreedExactly(s: Seg, E: set<Equ>, r: nat, bank: BankNumber)
    requires BanksAt(s, E, r) != {}
    ensures Agreed(BanksAt(s, E, r)) == bank <==> forall e :: e in E && Rank(s, e) == r ==> e.bank == bank
    ensures exists e :: e in E && Rank(s, e) == r
  {
    var banks := BanksAt(s, E, r);
    var b :| b in banks;
    var f :| f in E && Rank(s, f) == r && f.bank == b;
    forall e | e in E && Rank(s, e) == r
      ensures e.bank in banks
    {
    }
    if banks == {bank as int} {
      AgreedOne(banks, bank);
    } else if bank in banks {
      AgreedNone(banks, bank);
    } else {
      assert Agreed(banks) == -1 || Agreed(banks) in banks;
    }
  }
}
