/**
 One bit per 16-bit address, eight to a byte: the index that lets the per-instruction
 status check skip the breakpoint table.
 */
module PcBitmap {
  import opened Machine

  const BYTES: nat := 0x2000

  /** The bit of its byte that stands for an address. */
  function Mask(i: nat): Byte
    requires i < 8
  {
    if i == 0 then 0x01 else if i == 1 then 0x02 else if i == 2 then 0x04 else if i == 3 then 0x08
    else if i == 4 then 0x10 else if i == 5 then 0x20 else if i == 6 then 0x40 else 0x80
  }

  predicate Bit(b: Byte, i: nat)
    requires i < 8
  {
    b & Mask(i) != 0
  }

  lemma SetBit(b: Byte, i: nat, j: nat)
    requires i < 8 && j < 8
    ensures Bit(b | Mask(i), j) <==> i == j || Bit(b, j)
  {
  }

  lemma ZeroBit(j: nat)
    requires j < 8
    ensures !Bit(0, j)
  {
  }

  lemma SameSlot(p: Addr, q: Addr)
    ensures p / 8 == q / 8 && p % 8 == q % 8 ==> p == q
  {
  }

  class Bitmap {
    const bytes: array<Byte>

    ghost predicate Valid()
      reads this
    {
      bytes.Length == BYTES
    }

    predicate Has(p: Addr)
      requires bytes.Length == BYTES
      reads bytes
    {
      Bit(bytes[p / 8], p % 8)
    }

    constructor ()
      ensures Valid() && fresh(bytes)
      ensures forall p: Addr :: !Has(p)
    {
      bytes := new Byte[BYTES](_ => 0);
      new;
      forall p: Addr
        ensures !Has(p)
      {
        ZeroBit(p % 8);
      }
    }

    method Set(p: Addr)
      requires Valid()
      modifies bytes
      ensures forall q: Addr :: Has(q) <==> q == p || old(Has(q))
    {
      ghost var was := bytes[..];
      bytes[p / 8] := bytes[p / 8] | Mask(p % 8);
      forall q: Addr
        ensures Has(q) <==> q == p || old(Has(q))
      {
        assert was[q / 8] == old(bytes[q / 8]);
        SetBit(was[q / 8], p % 8, q % 8);
        SameSlot(p, q);
      }
    }

    method Clear()
      requires Valid()
      modifies bytes
      ensures forall p: Addr :: !Has(p)
    {
      forall i | 0 <= i < bytes.Length {
        bytes[i] := 0;
      }
      forall p: Addr
        ensures !Has(p)
      {
        ZeroBit(p % 8);
      }
    }
  }
}
