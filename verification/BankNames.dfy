/**
 Which constants speak for a segment: what is compared of the names, what kinds of match
 there are and which is better, and which segments are asked about at all.
 */
module BankNames {
  import opened BankSeeding

  // ---- Names ------------------------------------------------------------------------------

  /** Equal but for the case of a letter. */
  predicate Capital(u: char, c: char) {
    if 'a' <= c <= 'z' then u as int == c as int - 32 else u == c
  }

  /** Names are compared character by character: an underscore counts for nothing, any other
      character for its capital. */
  lemma SquashedOne(c: char)
    ensures if c == '_' then Squashed([c]) == [] else |Squashed([c])| == 1 && Capital(Squashed([c])[0], c)
  {
    assert [c][1..] == [];
  }

  lemma {:induction false} SquashedJoin(a: string, b: string)
    ensures Squashed(a + b) == Squashed(a) + Squashed(b)
    decreases |a|
  {
    if a == [] {
      assert a + b == b;
    } else {
      assert (a + b)[1..] == a[1..] + b;
      SquashedJoin(a[1..], b);
    }
  }

  /** A squashed name of 128 characters or more counts as none. */
  lemma LongNamesIgnored(s: string)
    ensures Squash(s) == if |Squashed(s)| < 128 then Squashed(s) else ""
  {
  }

  /** A constant named RAM_BANK_x, BANK_x or x_BANK speaks for the segment x, if x is shorter than 128. */
  lemma TargetOf(x: string, name: string)
    ensures var want := if |x| < 128 then Squash(x) else "";
            && Target("RAM_BANK_" + x) == want && Target("BANK_" + x) == want
            && (x != "" && !("RAM_BANK_" <= x + "_BANK") && !("BANK_" <= x + "_BANK") ==> Target(x + "_BANK") == want)
    ensures (!exists y :: name == "RAM_BANK_" + y || name == "BANK_" + y || (y != "" && name == y + "_BANK"))
            ==> Target(name) == ""
  {
    PrefixOf("RAM_BANK_", x);
    PrefixOf("BANK_", x);
    assert (x + "_BANK")[|x|..] == "_BANK" && (x + "_BANK")[..|x|] == x;
    assert !("RAM_BANK_" <= "BANK_" + x) by {
      assert ("BANK_" + x)[0] == 'B';
    }
    if "RAM_BANK_" <= name {
      assert name == "RAM_BANK_" + name[9..];
    } else if "BANK_" <= name {
      assert name == "BANK_" + name[5..];
    } else if |name| > 5 && name[|name|-5..] == "_BANK" {
      assert name == name[..|name|-5] + "_BANK";
    }
    assert Squash("") == "";
  }

  lemma PrefixOf(p: string, x: string)
    ensures p <= p + x && (p + x)[|p|..] == x
  {
  }

  // ---- Kinds of match -----------------------------------------------------------------------

  predicate Exact(s: Seg, e: Equ) {
    Target(e.name) != "" && Target(e.name) == Squash(s.name)
  }

  /** One name is the beginning of the other, and at least four characters. */
  predicate Abbreviates(s: Seg, e: Equ) {
    (4 <= |Target(e.name)| && Target(e.name) <= Squash(s.name))
    || (4 <= |Squash(s.name)| && Squash(s.name) <= Target(e.name))
  }

  /** The whole name is better than a beginning, and of the same the segment's own module is better. */
  lemma RankIs(s: Seg, e: Equ)
    ensures BankSeeding.Rank(s, e) ==
            if Exact(s, e) then if e.owner == s.owner then 0 else 1
            else if Abbreviates(s, e) then if e.owner == s.owner then 2 else 3
            else 4
  {
    var have, want := Squash(s.name), Target(e.name);
    var n := if |have| < |want| then |have| else |want|;
    assert have[..n] == want[..n] <==> have <= want || want <= have by {
      if |have| < |want| {
        assert have[..n] == have;
      } else {
        assert want[..n] == want;
      }
    }
  }

  // ---- Which segments ---------------------------------------------------------------------------

  /** A segment of banked memory with a name and a size, whose bank is not known otherwise. */
  predicate Asked(s: Seg) {
    (s.bank < 0 || s.fromEqu) && s.size > 0 && 0xA000 <= s.start < 0xC000 && Squash(s.name) != ""
  }

  /** Seeding gives a bank exactly to the segments it asks about and can agree on; of the others it
      takes away a bank it had given, and leaves the rest as they were. */
  lemma SeededExactly(s: Seg, E: set<Equ>, bank: BankNumber)
    requires Sound(s)
    ensures var u := Seeded(s, E);
            && u == s.(bank := u.bank, fromEqu := u.fromEqu)
            && (u.fromEqu && u.bank == bank <==> Asked(s) && exists r :: 0 <= r < 4 && AgreedAt(s, E, r, bank))
            && (!u.fromEqu ==> u.bank == if s.fromEqu then -1 else s.bank)
  {
    var v := Unseeded(s);
    BankGivenExactly(v, E, bank);
    VerdictSound(v, E);
    assert Squash("") == "";
    SameRanks(s, v, E, bank);
  }

  /** The match does not look at the bank. */
  lemma SameRanks(s: Seg, v: Seg, E: set<Equ>, bank: BankNumber)
    requires v == Unseeded(s)
    ensures forall r :: AgreedAt(s, E, r, bank) <==> AgreedAt(v, E, r, bank)
  {
    forall e
      ensures BankSeeding.Rank(s, e) == BankSeeding.Rank(v, e)
    {
    }
  }

  /** A blob loaded here may be the segment: as long as it, or longer by the two bytes of its header. */
  predicate MayBe(s: Seg, addr: nat, size: nat) {
    s.start == addr && s.size > 0 && (size == s.size || size == s.size + 2)
  }

  /** A load into banked memory tells the bank of the one segment it may be. */
  lemma ObservedExactly(segs: seq<Seg>, addr: nat, size: nat, ram: BankNumber, i: nat)
    requires i < |segs|
    ensures |Observed(segs, addr, size, ram)| == |segs|
    ensures Observed(segs, addr, size, ram)[i] ==
            if 0xA000 <= addr < 0xC000 && MayBe(segs[i], addr, size)
               && forall j :: 0 <= j < |segs| && j != i ==> !MayBe(segs[j], addr, size)
            then segs[i].(bank := ram, fromEqu := false) else segs[i]
  {
    assert forall j :: 0 <= j < |segs| ==> (MayBe(segs[j], addr, size) <==> Blob(segs[j], addr, size));
  }
}
