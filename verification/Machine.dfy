/**
 The vocabulary every component shares: bytes, 16-bit addresses, bank numbers, and
 which part of the live bank state selects the memory behind an address.
 */
module Machine {
  type Byte = bv8
  type Addr = a: int | 0 <= a < 0x10000
  type Bank = b: int | 0 <= b < 0x100

  const CURRENT_BANK: int := -1

  /** Status bits that say how wide the registers are. */
  const FLAG_INDEX_WIDTH: Byte := 0x10
  const FLAG_MEMORY_WIDTH: Byte := 0x20

  /** The live program bank and window registers. */
  datatype Banks = Banks(pbank: Bank, ram: Bank, rom: Bank)

  /** 16-bit address arithmetic, as `& 0xFFFF` does it. */
  function Wrap(a: int): Addr {
    a % 0x10000
  }

  /** Which banked window `addr` reads from; low memory follows the current bank. */
  function WindowBank(addr: Addr, banks: Banks): int {
    if addr >= 0xC000 then banks.rom
    else if addr >= 0xA000 then banks.ram
    else CURRENT_BANK
  }

  /** The address `n` bytes after `a`. */
  function After(a: Addr, n: nat): Addr {
    Wrap(a + n)
  }

  /** The address `n` bytes before `a`. */
  function Prior(a: Addr, n: nat): Addr {
    Wrap(a - n)
  }

  /** How far ahead of `a` the address `b` is. */
  function Gap(a: Addr, b: Addr): nat {
    Wrap(b - a)
  }

  lemma AfterAfter(a: Addr, m: nat, n: nat)
    ensures After(After(a, m), n) == After(a, m + n)
  {
  }

  lemma AfterPrior(a: Addr, n: nat)
    ensures After(Prior(a, n), n) == a
  {
  }

  /** Going forward `n` of the `m + n` bytes that lie before `a`. */
  lemma Approach(a: Addr, left: nat, n: nat)
    requires n <= left
    ensures After(Prior(a, left), n) == Prior(a, left - n)
  {
  }

  lemma GapToPrior(a: Addr, n: nat)
    requires n < 0x10000
    ensures Gap(Prior(a, n), a) == n
    ensures 0 < n ==> Prior(a, n) != a
  {
  }
}
