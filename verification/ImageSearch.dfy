/** The test for an image and the search for the next one (LAB_2/hdf/main.c). */
module ImageSearch {
  import opened Bytes
  import opened Arithmetic

  const IMAGE_IDENT: Word := 0x584C4E58

  /** Words of the boot device, by byte address, and the addresses whose reads fail; and what
      an uninitialised variable on the stack happens to hold. */
  datatype Device = Device(word: nat -> Word, fails: nat -> bool, stack: Word)

  /** A read into a variable, whose status is ignored: a failed one leaves it as it was. */
  function Fetch(read: Device, address: nat, variable: Word): Word {
    if read.fails(address) then variable else read.word(address)
  }

  predicate HasIdent(read: Device, base: nat) {
    Fetch(read, base + 0x24, read.stack) == IMAGE_IDENT
  }

  function CoveredWord(base: nat, k: nat): (address: nat) {
    base + 0x20 + 4 * k
  }

  /** The variable after the first `k` of the header words that the checksum covers. */
  function Temp(read: Device, base: nat, k: nat): Word {
    if k == 0 then 0 else Fetch(read, CoveredWord(base, k - 1), Temp(read, base, k - 1))
  }

  /** The sum of what it then held. */
  function HeaderSum(read: Device, base: nat, k: nat): Word {
    if k == 0 then 0 else Plus(HeaderSum(read, base, k - 1), Temp(read, base, k))
  }

  predicate ChecksumHolds(read: Device, base: nat) {
    Fetch(read, base + 0x48, Temp(read, base, 10)) as int == 0xFFFF_FFFF - HeaderSum(read, base, 10) as int
  }

  predicate ValidImage(read: Device, base: nat) {
    HasIdent(read, base) && ChecksumHolds(read, base)
  }

  method ImageCheckID(read: Device, base: nat) returns (ok: bool)
    ensures ok <==> HasIdent(read, base)
  {
    var id := read.stack;
    id := Fetch(read, base + 0x24, id);
    ok := id == IMAGE_IDENT;
  }

  method HeaderChecksum(read: Device, base: nat) returns (ok: bool)
    ensures ok <==> ChecksumHolds(read, base)
  {
    var checksum: Word, temp: Word, count: nat := 0, 0, 0;
    while count < 10
      invariant 0 <= count <= 10
      invariant temp == Temp(read, base, count) && checksum == HeaderSum(read, base, count)
    {
      temp := Fetch(read, base + 0x20 + count * 4, temp);
      checksum := Plus(checksum, temp);
      count := count + 1;
    }
    checksum := 0xFFFF_FFFF - checksum;
    temp := Fetch(read, base + 0x48, temp);
    ok := temp == checksum;
  }

  // ---------------------------------------------------------------------------------
  // What the checks promise
  // ---------------------------------------------------------------------------------

  /** The sum of the words themselves. */
  function SumOfWords(word: nat -> Word, base: nat, k: nat): Word {
    if k == 0 then 0 else Plus(SumOfWords(word, base, k - 1), word(CoveredWord(base, k - 1)))
  }

  /** The stored word is the complement of the sum of the ten words covered. */
  predicate Summed(word: nat -> Word, base: nat) {
    word(base + 0x48) as int == 0xFFFF_FFFF - SumOfWords(word, base, 10) as int
  }

  predicate HeaderReads(fails: nat -> bool, base: nat) {
    !fails(base + 0x48) && forall k | 0 <= k < 10 :: !fails(CoveredWord(base, k))
  }

  /** The identification is checked, whatever the device and the stack hold, exactly when its
      word can be read. */
  lemma IdentExactlyWhen(fails: nat -> bool, base: nat)
    ensures (forall word: nat -> Word, stack: Word :: HasIdent(Device(word, fails, stack), base) <==> word(base + 0x24) == IMAGE_IDENT)
            <==> !fails(base + 0x24)
  {
    var word := OneWord(base + 0x48, 0, base, 0);
    assert word(base + 0x24) == 0;
    if fails(base + 0x24) {
      assert HasIdent(Device(word, fails, IMAGE_IDENT), base);
    } else {
      forall word: nat -> Word, stack: Word
        ensures HasIdent(Device(word, fails, stack), base) <==> word(base + 0x24) == IMAGE_IDENT
      {
        assert !Device(word, fails, stack).fails(base + 0x24);
      }
    }
  }

  lemma {:induction false} SumsAgree(read: Device, base: nat, k: nat)
    requires forall j | 0 <= j < k :: !read.fails(CoveredWord(base, j))
    ensures HeaderSum(read, base, k) == SumOfWords(read.word, base, k)
  {
    if k > 0 {
      SumsAgree(read, base, k - 1);
    }
  }

  /** A device that holds `stored` as checksum, `v` at `at`, and 0 elsewhere. */
  function OneWord(at: nat, v: Word, base: nat, stored: Word): nat -> Word {
    (a: nat) => if a == base + 0x48 then stored else if a == at then v else 0
  }

  /** What its sums are: the word counts if it lies among the first k, unless it is not read. */
  lemma {:induction false} OneWordSums(fails: nat -> bool, base: nat, j: nat, stored: Word, k: nat)
    requires j < 10 && k <= 10 && fails(CoveredWord(base, j))
    ensures var word := OneWord(CoveredWord(base, j), 1, base, stored);
            && Temp(Device(word, fails, 0), base, k) == 0 && HeaderSum(Device(word, fails, 0), base, k) == 0
            && SumOfWords(word, base, k) == if j < k then 1 else 0
  {
    if k > 0 {
      OneWordSums(fails, base, j, stored, k - 1);
    }
  }

  lemma {:induction false} NoWordSums(fails: nat -> bool, base: nat, stored: Word, k: nat)
    requires k <= 10
    ensures var word := OneWord(base + 0x48, 0, base, stored);
            && Temp(Device(word, fails, 0), base, k) == 0 && HeaderSum(Device(word, fails, 0), base, k) == 0
            && SumOfWords(word, base, k) == 0
  {
    if k > 0 {
      NoWordSums(fails, base, stored, k - 1);
    }
  }

  /** The checksum is checked, whatever the device holds, exactly when all its words can be
      read: a failed read counts the word before it once more. */
  lemma ChecksumExactlyWhen(fails: nat -> bool, base: nat)
    ensures (forall word: nat -> Word, stack: Word :: ChecksumHolds(Device(word, fails, stack), base) <==> Summed(word, base))
            <==> HeaderReads(fails, base)
  {
    if HeaderReads(fails, base) {
      forall word: nat -> Word, stack: Word
        ensures ChecksumHolds(Device(word, fails, stack), base) <==> Summed(word, base)
      {
        SumsAgree(Device(word, fails, stack), base, 10);
      }
    } else if fails(base + 0x48) {
      var word := OneWord(base + 0x48, 0, base, 0xFFFF_FFFF);
      NoWordSums(fails, base, 0xFFFF_FFFF, 10);
      assert Summed(word, base) && !ChecksumHolds(Device(word, fails, 0), base);
    } else {
      var j :| 0 <= j < 10 && fails(CoveredWord(base, j));
      var word := OneWord(CoveredWord(base, j), 1, base, 0xFFFF_FFFE);
      OneWordSums(fails, base, j, 0xFFFF_FFFE, 10);
      assert Summed(word, base) && !ChecksumHolds(Device(word, fails, 0), base);
    }
  }

  // ---------------------------------------------------------------------------------
  // Addresses
  // ---------------------------------------------------------------------------------

  /** The identification is the letters XLNX, and lies 36 bytes into the image. */
  lemma IdentInLetters(read: Device, base: nat)
    requires !read.fails(base + 36)
    ensures HasIdent(read, base) <==>
            read.word(base + 36) as int == 'X' as int * 0x100_0000 + 'L' as int * 0x1_0000 + 'N' as int * 0x100 + 'X' as int
  {
  }

  function WideSum(word: nat -> Word, base: nat, k: nat): int {
    if k == 0 then 0 else WideSum(word, base, k - 1) + word(CoveredWord(base, k - 1)) as int
  }

  lemma {:induction false} SumIsWide(word: nat -> Word, base: nat, k: nat)
    ensures SumOfWords(word, base, k) as int == WideSum(word, base, k) % 0x1_0000_0000
  {
    hide CoveredWord;
    if k > 0 {
      SumIsWide(word, base, k - 1);
      WrapsOnce(WideSum(word, base, k - 1), word(CoveredWord(base, k - 1)) as int);
    }
  }

  /** The checksum is right exactly when the word at 0x48 is the complement of the sum, in 32
      bits, of the ten words from 0x20 to 0x44. */
  lemma SummedInFull(word: nat -> Word, base: nat)
    ensures Summed(word, base) <==>
            word(base + 0x48) as int == 0xFFFF_FFFF -
              (word(base + 0x20) as int + word(base + 0x24) as int + word(base + 0x28) as int + word(base + 0x2C) as int
               + word(base + 0x30) as int + word(base + 0x34) as int + word(base + 0x38) as int + word(base + 0x3C) as int
               + word(base + 0x40) as int + word(base + 0x44) as int) % 0x1_0000_0000
  {
    SumIsWide(word, base, 10);
    hide SumOfWords;
    assert WideSum(word, base, 1) == word(base + 0x20) as int;
    assert WideSum(word, base, 2) == word(base + 0x20) as int + word(base + 0x24) as int;
    assert WideSum(word, base, 4) == WideSum(word, base, 2) + word(base + 0x28) as int + word(base + 0x2C) as int;
    assert WideSum(word, base, 6) == WideSum(word, base, 4) + word(base + 0x30) as int + word(base + 0x34) as int;
    assert WideSum(word, base, 8) == WideSum(word, base, 6) + word(base + 0x38) as int + word(base + 0x3C) as int;
    assert WideSum(word, base, 10) == WideSum(word, base, 8) + word(base + 0x40) as int + word(base + 0x44) as int;
  }

  /** The reads that must work are those of the eleven words from 0x20 to 0x48. */
  lemma ReadsInFull(fails: nat -> bool, base: nat)
    ensures HeaderReads(fails, base) <==> forall k | 8 <= k <= 18 :: !fails(base + 4 * k)
  {
    forall k | 0 <= k < 10
      ensures CoveredWord(base, k) == base + 4 * (k + 8)
    {
    }
    if forall k | 8 <= k <= 18 :: !fails(base + 4 * k) {
      assert !fails(base + 4 * 18);
      forall k | 0 <= k < 10
        ensures !fails(CoveredWord(base, k))
      {
        assert !fails(base + 4 * (k + 8));
      }
    }
    if HeaderReads(fails, base) {
      forall k | 8 <= k <= 18
        ensures !fails(base + 4 * k)
      {
        assert k < 18 ==> !fails(CoveredWord(base, k - 8));
      }
    }
  }

  /** Two devices that agree on the words from 0x20 to 0x48, and on which of their reads fail. */
  ghost predicate SameHeader(read: Device, read': Device, base: nat) {
    && read.stack == read'.stack
    && forall a: nat | base + 0x20 <= a <= base + 0x48 :: read.word(a) == read'.word(a) && read.fails(a) == read'.fails(a)
  }

  lemma {:induction false} SameSums(read: Device, read': Device, base: nat, k: nat)
    requires SameHeader(read, read', base) && k <= 10
    ensures Temp(read, base, k) == Temp(read', base, k) && HeaderSum(read, base, k) == HeaderSum(read', base, k)
  {
    if k > 0 {
      SameSums(read, read', base, k - 1);
    }
  }

  /** No other word has a say in whether there is an image. */
  lemma OnlyTheHeaderCounts(read: Device, read': Device, base: nat)
    requires SameHeader(read, read', base)
    ensures ValidImage(read, base) <==> ValidImage(read', base)
  {
    SameSums(read, read', base, 10);
  }

  /** Where every read works, a slot holds an image exactly when it says XLNX and its checksum is
      right. */
  lemma ValidInFull(read: Device, base: nat)
    requires forall a :: !read.fails(a)
    ensures ValidImage(read, base) <==>
            read.word(base + 36) as int == 'X' as int * 0x100_0000 + 'L' as int * 0x1_0000 + 'N' as int * 0x100 + 'X' as int
            && Summed(read.word, base)
  {
    IdentInLetters(read, base);
    SumsAgree(read, base, 10);
  }

  /** The test of the search loop: the second check only if the first succeeds. */
  method IsImage(read: Device, base: nat) returns (ok: bool)
    ensures ok <==> ValidImage(read, base)
  {
    ok := ImageCheckID(read, base);
    if ok {
      ok := HeaderChecksum(read, base);
    }
  }

  // ---------------------------------------------------------------------------------
  // Slots of 32 KB, numbered by the low 13 bits of the multiboot register
  // ---------------------------------------------------------------------------------

  function Slot(reg: Word): (s: nat)
    ensures s < 0x2000
  {
    reg as nat % 0x2000
  }

  function Base(slot: nat): nat {
    slot * 0x8000
  }

  /** The slots of the register's low 13 bits lie 32768 bytes apart. */
  lemma SlotsInBytes(reg: Word)
    ensures Base(Slot(reg)) == reg as nat % 8192 * 32768
  {
  }

  function RegAfter(reg: Word, n: nat): Word {
    ((reg as nat + n) % 0x1_0000_0000) as Word
  }

  /** The search stops after `n` steps: past the end of the flash, or at an image. */
  predicate Exits(read: Device, size: nat, reg: Word, n: nat) {
    var base := Base(Slot(RegAfter(reg, n)));
    base >= size || ValidImage(read, base)
  }

  /** `n` is the first step at which the search can end. */
  ghost predicate FirstExit(read: Device, size: nat, reg: Word, n: nat) {
    Exits(read, size, reg, n) && forall k | 0 <= k < n :: !Exits(read, size, reg, k)
  }

  lemma SlotAfter(reg: Word, n: nat)
    ensures Slot(RegAfter(reg, n)) == (Slot(reg) + n) % 0x2000
  {
  }

  lemma RegAfterNone(reg: Word)
    ensures RegAfter(reg, 0) == reg
  {
  }

  lemma RegAfterOne(reg: Word, n: nat)
    ensures Plus(RegAfter(reg, n), 1) == RegAfter(reg, n + 1)
  {
  }

  ghost predicate Terminates(read: Device, size: nat, reg: Word) {
    exists n: nat :: Exits(read, size, reg, n)
  }

  /** The search ends exactly when the flash is no larger than the 13-bit counter can
      step past, or some slot holds an image: in a larger flash without one the counter
      wraps round and the loop never ends. */
  lemma TerminatesExactlyWhen(read: Device, size: nat, reg: Word)
    ensures Terminates(read, size, reg) <==>
            size <= Base(0x1FFF) || exists s | 0 <= s < 0x2000 :: ValidImage(read, Base(s))
  {
    hide RegAfter, ValidImage;
    if Terminates(read, size, reg) {
      var n: nat :| Exits(read, size, reg, n);
      var s := Slot(RegAfter(reg, n));
      assert ValidImage(read, Base(s)) || size <= Base(s) <= Base(0x1FFF);
    }
    if size <= Base(0x1FFF) {
      var n := Reaches(reg, 0x1FFF);
      assert Exits(read, size, reg, n);
    }
    if s :| 0 <= s < 0x2000 && ValidImage(read, Base(s)) {
      var n := Reaches(reg, s);
      assert Exits(read, size, reg, n);
    }
  }

  /** The counter comes to every slot. */
  lemma Reaches(reg: Word, s: nat) returns (n: nat)
    requires s < 0x2000
    ensures Slot(RegAfter(reg, n)) == s
  {
    n := if s >= Slot(reg) then s - Slot(reg) else s + 0x2000 - Slot(reg);
    SlotAfter(reg, n);
  }

  /** In a flash the counter can step past, the search never wraps round: step `k` is
      at slot start + k. */
  lemma {:induction false} NoWrap(read: Device, size: nat, reg: Word, k: nat)
    requires size <= Base(0x1FFF)
    requires forall j | 0 <= j < k :: !Exits(read, size, reg, j)
    ensures Slot(RegAfter(reg, k)) == Slot(reg) + k
  {
    SlotAfter(reg, k);
    if k > 0 {
      NoWrap(read, size, reg, k - 1);
      assert !Exits(read, size, reg, k - 1);
    }
  }
}
