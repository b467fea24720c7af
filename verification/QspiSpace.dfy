/** The address space of a banked QSPI flash (LAB_2/hdf/qspi.c).

    One flat space is served from one chip, two stacked chips or two parallel chips.  A
    chip only takes 24-bit addresses: a bank register inside the chip supplies the rest. */
module QspiSpace {
  import opened Bytes

  datatype Connection = Single | Stacked | Parallel

  /** Data bytes of one transfer. */
  const DATA_SIZE: nat := 4096

  // ---------------------------------------------------------------------------------
  // Addresses, banks and the flat space
  // ---------------------------------------------------------------------------------

  predicate IsChipSize(n: nat) {
    n % 0x1000000 == 0 && 0 < n <= 0x8000000
  }

  function BankOf(a: nat): nat {
    a / 0x1000000
  }

  /** address & BANKMASK, with BANKMASK == 0xF000000: bits 24 to 27. */
  function Masked(a: nat): nat {
    a / 0x1000000 % 16 * 0x1000000
  }

  /** The byte a chip returns for a 24-bit address under a bank register. */
  function ChipByte(chip: seq<Byte>, bank: nat, a: nat): Byte
    requires IsChipSize(|chip|) && bank < BankOf(|chip|)
  {
    chip[bank * 0x1000000 + a % 0x1000000]
  }

  /** The bank register while address `a` is read: bank 0 is never selected by the
      loop, so there the register still holds whatever it held on entry. */
  function HeldBank(entry: nat, a: nat): nat {
    if a < 0x1000000 then entry else BankOf(a)
  }

  predicate IsFlash(mode: Connection, lower: seq<Byte>, upper: seq<Byte>) {
    && IsChipSize(|lower|)
    && |upper| == if mode.Single? then 0 else |lower|
  }

  function FlashSize(mode: Connection, chipSize: nat): nat {
    if mode.Single? then chipSize else 2 * chipSize
  }

  /** The flat logical flash: one chip, lower ++ upper, or byte-interleaved. */
  ghost function Flat(mode: Connection, lower: seq<Byte>, upper: seq<Byte>, a: nat): Byte
    requires IsFlash(mode, lower, upper) && a < FlashSize(mode, |lower|)
  {
    match mode
    case Single => lower[a]
    case Stacked => (lower + upper)[a]
    case Parallel => if a % 2 == 0 then lower[a / 2] else upper[a / 2]
  }

  /** What the banked read delivers at logical address `a` when the bank registers
      hold `lb` and `ub` on entry. */
  ghost function Observed(mode: Connection, lower: seq<Byte>, upper: seq<Byte>, lb: nat, ub: nat, a: nat): Byte
    requires IsFlash(mode, lower, upper) && a < FlashSize(mode, |lower|)
    requires lb < BankOf(|lower|) && (mode.Single? || ub < BankOf(|lower|))
  {
    match mode
    case Single => ChipByte(lower, HeldBank(lb, a), a)
    case Stacked =>
      if a < |lower| then ChipByte(lower, HeldBank(lb, a), a)
      else ChipByte(upper, HeldBank(ub, a - |lower|), a - |lower|)
    case Parallel =>
      if a % 2 == 0 then ChipByte(lower, HeldBank(lb, a / 2), a / 2)
      else ChipByte(upper, HeldBank(ub, a / 2), a / 2)
  }

  ghost function ObservedSlice(mode: Connection, lower: seq<Byte>, upper: seq<Byte>, lb: nat, ub: nat, from: nat, n: nat): (s: seq<Byte>)
    requires IsFlash(mode, lower, upper) && from + n <= FlashSize(mode, |lower|)
    requires lb < BankOf(|lower|) && (mode.Single? || ub < BankOf(|lower|))
    ensures |s| == n
  {
    seq(n, i requires 0 <= i < n => Observed(mode, lower, upper, lb, ub, from + i))
  }

  ghost function FlatSlice(mode: Connection, lower: seq<Byte>, upper: seq<Byte>, from: nat, n: nat): (s: seq<Byte>)
    requires IsFlash(mode, lower, upper) && from + n <= FlashSize(mode, |lower|)
    ensures |s| == n
  {
    seq(n, i requires 0 <= i < n => Flat(mode, lower, upper, from + i))
  }

  /** A parallel read halves the source address, which drops an odd last bit. */
  function Source(mode: Connection, source: nat): (from: nat)
    ensures from <= source <= from + 1 && (mode.Parallel? ==> from % 2 == 0)
  {
    if mode.Parallel? then source / 2 * 2 else source
  }

  /** The linear branch reads whole words. */
  function RoundUp4(n: nat): (r: nat)
    ensures r % 4 == 0 && n <= r < n + 4
  {
    (n + 3) / 4 * 4
  }

  /** A stacked read that runs from the lower chip into the upper one. */
  predicate RunsIntoUpper(mode: Connection, chipSize: nat, source: nat, length: nat) {
    mode.Stacked? && source < chipSize < source + length
  }

  /** The lower chip's bank register after a successful read. */
  function LowerBankAfter(mode: Connection, chipSize: nat, lb: nat, source: nat, length: nat): nat
    requires chipSize > 0
  {
    if RunsIntoUpper(mode, chipSize, source, length) then HeldBank(lb, chipSize - 1)
    else if mode.Stacked? && source >= chipSize && length > 0 then lb
    else 0
  }

  /** The upper chip's bank register after a successful read. */
  function UpperBankAfter(mode: Connection, chipSize: nat, ub: nat, source: nat, length: nat): nat {
    match mode
    case Single => ub
    case Stacked => if length > 0 && source + length > chipSize then 0 else ub
    case Parallel => 0
  }

  /** No bank of its own is missed: a chunk of `span` bytes per chip that starts at `a`. */
  predicate InsideOneBank(a: nat, span: nat) {
    a % 0x1000000 + span <= 0x1000000
  }

  lemma BankCrossing(a: nat, span: nat)
    requires span <= 4096 && a + span < 0x10000000
    ensures Masked(a) == BankOf(a) * 0x1000000
    ensures Masked(a) == Masked(a + span) ==> a % 0x1000000 + span < 0x1000000
    ensures Masked(a) != Masked(a + span) ==>
              0 < Masked(a) + 0x1000000 - a <= span && a + (Masked(a) + 0x1000000 - a) == (BankOf(a) + 1) * 0x1000000
  {
  }

  lemma SameBank(a: nat, k: nat)
    requires a % 0x1000000 + k < 0x1000000
    ensures BankOf(a + k) == BankOf(a) && (a + k) % 0x1000000 == a % 0x1000000 + k
  {
  }
}
