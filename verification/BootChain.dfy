/** The fallback chain (LAB_2/hdf/main.c, with LoadBootImage of image_mover.c): an image that
    fails is followed by a search for the next one, which is loaded with the flags and after
    the operations that the failed one leaves. */
module BootChain {
  import opened Bytes
  import opened Xstatus
  import opened ImageSearch
  import opened BootHeaders
  import opened BootPlan
  import BootWalk
  import opened BootSafety
  import opened BootSystem

  /** One image loaded: its slot, the flags found, and the number of operations before it. */
  datatype Attempt = Attempt(slot: nat, kind: Kind, start: nat)

  /** Where the boot goes when the chain ends. */
  datatype End =
    | Handoff(slot: nat, exec: nat)
    | NoImageFound        // FsblHookFallback after an exhausted search
    | NoFallback          // FsblHookFallback: boot mode, fabric or initialisation
    | PsReset             // no eFuse key: back to the boot ROM

  /** The slots of attempts, in order, rise strictly. */
  ghost predicate Rising(made: seq<Attempt>) {
    forall i, j | 0 <= i < j < |made| :: made[i].slot < made[j].slot
  }

  /** They climb at least as far as there are attempts. */
  lemma {:induction false} RisesAsLong(made: seq<Attempt>)
    requires made != [] && Rising(made)
    ensures made[|made| - 1].slot >= made[0].slot + |made| - 1
  {
    if |made| > 1 {
      RisesAsLong(made[..|made| - 1]);
    }
  }

  ghost predicate Tried(made: seq<Attempt>, slot: nat) {
    exists i | 0 <= i < |made| :: made[i].slot == slot
  }

  class Loader {
    const read: Device
    const size: nat                     // BootDevMaxSize
    const siliconOne: bool              // silicon 1.0 has no multiboot update
    const flashBoot: bool               // QSPI, NAND or NOR boot mode
    const aesFuse: bool                 // the AES key comes from eFuses
    const systemInit: bool              // SystemInitFlag
    const table: nat -> seq<Header>     // the partition headers of the image in a slot
    const fabricFails: nat -> bool      // does FabricInit fail after attempt k?
    const mover: BootWalk.Mover

    var multiBootReg: Word
    var tries: nat                      // images loaded or refused so far

    ghost predicate Valid()
      reads this, mover
    {
      && !siliconOne && size <= Base(0x1FFF)
      && (forall slot :: |table(slot)| == MAX_PARTITION_NUMBER)
      && !(mover.pl && mover.ps)
    }

    constructor (read: Device, size: nat, siliconOne: bool, flashBoot: bool, aesFuse: bool, systemInit: bool,
                 table: nat -> seq<Header>, fabricFails: nat -> bool, mover: BootWalk.Mover, reg: Word)
      ensures this.read == read && this.size == size && this.siliconOne == siliconOne
      ensures this.flashBoot == flashBoot && this.aesFuse == aesFuse && this.systemInit == systemInit
      ensures this.table == table && this.fabricFails == fabricFails && this.mover == mover
      ensures multiBootReg == reg && tries == 0
    {
      this.read, this.size, this.siliconOne, this.flashBoot := read, size, siliconOne, flashBoot;
      this.aesFuse, this.systemInit, this.table, this.fabricFails, this.mover := aesFuse, systemInit, table, fabricFails, mover;
      multiBootReg, tries := reg, 0;
    }

    /** The search: `n` is the first step at which it can end.  An image found there is
        recorded in the register; at the end of the flash the register is left alone. */
    method NextValidImageCheck() returns (status: Status, ghost n: nat)
      requires Terminates(read, size, multiBootReg)
      modifies this`multiBootReg
      ensures FirstExit(read, size, old(multiBootReg), n)
      ensures var base := Base(Slot(RegAfter(old(multiBootReg), n)));
              && (status.Success? <==> base < size)
              && (status.Success? ==> ValidImage(read, base))
      ensures multiBootReg == if status.Success? then RegAfter(old(multiBootReg), n) else old(multiBootReg)
    {
      ghost var start := multiBootReg;
      var reg := multiBootReg;
      var base := Base(Slot(reg));
      n := 0;
      ghost var bound: nat :| Exits(read, size, start, bound);
      RegAfterNone(start);
      hide Slot, RegAfter, ValidImage, Base, Plus;
      while base < size
        invariant n <= bound && multiBootReg == start
        invariant reg == RegAfter(start, n) && base == Base(Slot(reg))
        invariant forall k | 0 <= k < n :: !Exits(read, size, start, k)
        decreases bound - n
      {
        var ok := IsImage(read, base);
        if ok {
          multiBootReg := reg;
          return Success, n;
        }
        RegAfterOne(start, n);
        reg := Plus(reg, 1);
        n := n + 1;
        base := Base(Slot(reg));
      }
      return Failure, n;
    }

    method UpdateMultiBootRegister()
      requires !siliconOne && Slot(multiBootReg) < 0x1FFF
      modifies this`multiBootReg
      ensures Slot(multiBootReg) == old(Slot(multiBootReg)) + 1
    {
      SlotAfter(multiBootReg, 1);
      if !siliconOne {
        multiBootReg := Plus(multiBootReg, 1);
      }
    }

    lemma NothingBetween(reg: Word, n: nat)
      requires size <= Base(0x1FFF)
      requires forall k | 0 <= k < n :: !Exits(read, size, reg, k)
      ensures forall k | Slot(reg) <= k < Slot(reg) + n :: !ValidImage(read, Base(k))
    {
      forall k | Slot(reg) <= k < Slot(reg) + n
        ensures !ValidImage(read, Base(k))
      {
        NoWrap(read, size, reg, k - Slot(reg));
        assert !Exits(read, size, reg, k - Slot(reg));
      }
    }

    // -------------------------------------------------------------------------------
    // Chains of attempts
    // -------------------------------------------------------------------------------

    /** A slot the chain may try: where it starts, or one with a valid image. */
    predicate Candidate(start: nat, slot: nat) {
      start <= slot && Base(slot) < size && (slot == start || ValidImage(read, Base(slot)))
    }

    /** The image boots, with the flags found and after the operations before it. */
    ghost predicate Loads(a: Attempt) {
      Boots(mover.cfg, mover.fails, table(a.slot), a.kind, a.start)
    }

    /** `b` begins with the flags and after the operations that `a`, falling back, leaves. */
    ghost predicate Inherits(a: Attempt, b: Attempt) {
      Leaves(mover.cfg, mover.fails, table(a.slot), a.kind, a.start, b.kind, b.start)
    }

    /** After `n` attempts in all, a failed image is followed by a search: the boot mode has a
        fallback, the key is in eFuses, the system is initialised and the fabric is cleaned. */
    predicate Searches(n: nat) {
      flashBoot && aesFuse && systemInit && !fabricFails(n)
    }

    /** The operations of an attempt that hands over to `exec` have done all that a boot with
        its flags does, whatever memory and fabric held before. */
    ghost predicate HandedOver(a: Attempt, ops: seq<Op>, exec: nat) {
      exists stop :: BootedOnto(a, ops, stop, exec)
    }

    ghost predicate BootedOnto(a: Attempt, ops: seq<Op>, stop: nat, exec: nat) {
      forall m :: Booted(mover.cfg, table(a.slot), a.kind, m, ops, stop, exec)
    }

    /** The i-th attempt fails, is followed by a search, and leaves its flags to the next. */
    ghost predicate GoesOn(made: seq<Attempt>, tries: nat, i: nat)
      requires i + 1 < |made|
    {
      !Loads(made[i]) && Searches(tries + i + 1) && Inherits(made[i], made[i + 1])
    }

    /** Attempts made one after the other: candidates in strictly rising order, none left out,
        each but the last going on to the next. */
    ghost predicate Linked(made: seq<Attempt>, tries: nat) {
      && made != [] && Rising(made)
      && (forall i | 0 <= i < |made| :: Candidate(made[0].slot, made[i].slot))
      && (forall k: nat | k <= made[|made| - 1].slot && Candidate(made[0].slot, k) :: Tried(made, k))
      && (forall i | 0 <= i < |made| - 1 :: GoesOn(made, tries, i))
    }

    /** Why a chain ends: the last attempt hands over, or there are no more candidates, or it is
        barred from searching for one of the reasons stated. */
    ghost predicate Ends(made: seq<Attempt>, tries: nat, log: seq<Op>, end: End)
      requires made != []
    {
      var last := made[|made| - 1];
      match end
      case Handoff(slot, exec) =>
        slot == last.slot && Loads(last) && last.start <= |log| && HandedOver(last, log[last.start..], exec)
      case NoImageFound =>
        !Loads(last) && Searches(tries + |made|) && forall k | last.slot < k :: !Candidate(made[0].slot, k)
      case NoFallback => !Loads(last) && !Searches(tries + |made|) && !(flashBoot && !aesFuse)
      case PsReset => !Loads(last) && flashBoot && !aesFuse
    }

    ghost predicate Chain(made: seq<Attempt>, tries: nat, log: seq<Op>, end: End) {
      Linked(made, tries) && Ends(made, tries, log, end)
    }

    /** Tries the image in the register's slot, and falls back if it does not load. */
    method LoadBootImage() returns (end: End, ghost made: seq<Attempt>)
      requires Valid() && Base(Slot(multiBootReg)) < size
      modifies this, mover
      ensures Chain(made, old(tries), mover.log, end) && made != []
      ensures made[0] == Attempt(Slot(old(multiBootReg)), old(mover.FlagKind()), |old(mover.log)|)
      decreases 0x2000 - Slot(multiBootReg), 1
    {
      hide Base, Slot, Chain, Candidate, Booted, Boots, Leaves, BootWalk.BootEnded;
      var slot := Slot(multiBootReg);
      ghost var a := Attempt(slot, mover.FlagKind(), |mover.log|);
      ghost var before := mover.log;
      tries := tries + 1;
      var outcome, began;
      ghost var count, stop;
      outcome, began, count, stop := Boot(mover, table(slot));
      match outcome {
        case Loaded(exec) =>
          assert BootedOnto(a, mover.log[a.start..], stop, exec);
          HandoffAlone(a, tries - 1, mover.log, exec);
          return Handoff(slot, exec), [a];
        case Fallback(code) =>
          FallbackLeaves(mover, table(slot), a.kind, before, count, began, stop, code);
          end, made := FsblFallback(slot, a);
      }
    }

    lemma HandoffAlone(a: Attempt, tries: nat, log: seq<Op>, exec: nat)
      requires Base(a.slot) < size && Loads(a) && a.start <= |log| && HandedOver(a, log[a.start..], exec)
      ensures Chain([a], tries, log, Handoff(a.slot, exec))
    {
      LinkedAlone(a, tries);
      hide Loads, HandedOver;
    }

    lemma LinkedAlone(a: Attempt, tries: nat)
      requires Base(a.slot) < size
      ensures Linked([a], tries)
    {
      hide Base;
      assert [a][0].slot == a.slot;
    }

    /** The candidates from a slot are that slot and those from the next image on. */
    lemma CandidatesFrom(slot: nat, next: nat)
      requires Base(slot) < size && slot < next && Base(next) < size && ValidImage(read, Base(next))
      requires forall k | slot < k < next :: !ValidImage(read, Base(k))
      ensures forall k: nat :: Candidate(slot, k) <==> k == slot || Candidate(next, k)
    {
      hide Base, ValidImage;
    }

    lemma GoesOnMore(a: Attempt, rest: seq<Attempt>, tries: nat, i: nat)
      requires rest != [] && i < |rest|
      requires !Loads(a) && Searches(tries + 1) && Inherits(a, rest[0])
      requires i > 0 ==> GoesOn(rest, tries + 1, i - 1)
      ensures GoesOn([a] + rest, tries, i)
    {
      hide Loads, Inherits, Searches;
    }

    lemma RisesMore(a: Attempt, rest: seq<Attempt>)
      requires rest != [] && Rising(rest) && a.slot < rest[0].slot
      ensures Rising([a] + rest)
    {
      forall i, j | 0 <= i < j < 1 + |rest|
        ensures ([a] + rest)[i].slot < ([a] + rest)[j].slot
      {
        assert j > 1 ==> rest[0].slot < rest[j - 1].slot;
      }
    }

    lemma LinkedGoesOn(a: Attempt, rest: seq<Attempt>, tries: nat)
      requires Linked(rest, tries + 1) && a.slot < rest[0].slot
      requires forall k: nat :: Candidate(a.slot, k) <==> k == a.slot || Candidate(rest[0].slot, k)
      requires !Loads(a) && Searches(tries + 1) && Inherits(a, rest[0])
      ensures Linked([a] + rest, tries)
    {
      hide Candidate, Loads, Inherits, Searches, GoesOn, Rising, Tried;
      var made := [a] + rest;
      RisesMore(a, rest);
      forall i | 0 <= i < |made|
        ensures Candidate(a.slot, made[i].slot)
      {
        assert i > 0 ==> Candidate(rest[0].slot, rest[i - 1].slot);
      }
      forall k: nat | Candidate(a.slot, k) && k <= made[|made| - 1].slot
        ensures Tried(made, k)
      {
        TriedMore(a, rest, k);
      }
      forall i | 0 <= i < |made| - 1
        ensures GoesOn(made, tries, i)
      {
        GoesOnMore(a, rest, tries, i);
      }
    }

    lemma TriedMore(a: Attempt, rest: seq<Attempt>, k: nat)
      ensures k == a.slot || Tried(rest, k) ==> Tried([a] + rest, k)
    {
      var made := [a] + rest;
      assert made[0].slot == a.slot;
      if i :| 0 <= i < |rest| && rest[i].slot == k {
        assert made[i + 1].slot == k;
      }
    }

    /** A chain that goes on at the next image belongs to the chain before it. */
    lemma ChainGoesOn(a: Attempt, rest: seq<Attempt>, tries: nat, log: seq<Op>, end: End)
      requires Chain(rest, tries + 1, log, end)
      requires Base(a.slot) < size && a.slot < rest[0].slot && ValidImage(read, Base(rest[0].slot))
      requires forall k | a.slot < k < rest[0].slot :: !ValidImage(read, Base(k))
      requires !Loads(a) && Searches(tries + 1) && Inherits(a, rest[0])
      ensures Chain([a] + rest, tries, log, end)
    {
      hide Base, ValidImage, Loads, Inherits, Searches, HandedOver, GoesOn, Tried, Rising;
      assert Candidate(rest[0].slot, rest[0].slot);
      CandidatesFrom(a.slot, rest[0].slot);
      LinkedGoesOn(a, rest, tries);
      assert ([a] + rest)[|rest|] == rest[|rest| - 1];
    }

    /** The image in `slot` has failed: search on from the next slot. */
    method FsblFallback(slot: nat, ghost a: Attempt) returns (end: End, ghost made: seq<Attempt>)
      requires Valid() && Base(slot) < size && slot == Slot(multiBootReg) == a.slot
      requires tries > 0 && !Loads(a) && Inherits(a, Attempt(slot, mover.FlagKind(), |mover.log|))
      modifies this, mover
      ensures Chain(made, old(tries) - 1, mover.log, end) && made != [] && made[0] == a
      decreases 0x2000 - slot, 0
    {
      hide ValidImage, Exits, RegAfter, Slot, Linked, Loads, Leaves, Candidate;
      made := [a];
      LinkedAlone(a, tries - 1);
      if !flashBoot {
        return NoFallback, made;
      }
      UpdateMultiBootRegister();
      if !aesFuse {
        return PsReset, made;
      }
      if !systemInit {
        return NoFallback, made;
      }
      if fabricFails(tries) {
        return NoFallback, made;
      }
      ghost var reg := multiBootReg;
      TerminatesExactlyWhen(read, size, reg);
      var status;
      ghost var n;
      status, n := NextValidImageCheck();
      NoWrap(read, size, reg, n);
      NothingBetween(reg, n);
      if status.Failure? {
        NoneLeft(slot, Slot(reg) + n);
        return NoImageFound, made;
      }
      ghost var rest;
      end, rest := LoadBootImage();
      made := [a] + rest;
      ChainGoesOn(a, rest, old(tries) - 1, mover.log, end);
    }

    /** Past the end of the flash there is nothing to try. */
    lemma NoneLeft(slot: nat, end: nat)
      requires Base(end) >= size && forall k | slot < k < end :: !ValidImage(read, Base(k))
      ensures forall k | slot < k :: !Candidate(slot, k)
    {
    }

    // -------------------------------------------------------------------------------
    // What a chain finds
    // -------------------------------------------------------------------------------

    /** A chain makes no more attempts than there are slots from its start to the end of the
        flash. */
    lemma AttemptsBounded(made: seq<Attempt>, tries: nat)
      requires Linked(made, tries)
      ensures Base(made[0].slot + |made| - 1) < size
    {
      RisesAsLong(made);
      assert Candidate(made[0].slot, made[|made| - 1].slot);
    }

    /** Where the search is never barred, the chain hands over at the first attempt that loads
        with what it inherits, having left out no candidate before it; or no candidate, as it was
        tried, loads. */
    lemma GoldenImage(made: seq<Attempt>, tries: nat, log: seq<Op>, end: End)
      requires Chain(made, tries, log, end)
      requires flashBoot && aesFuse && systemInit && !fabricFails(tries + |made|)
      ensures end.Handoff? || end.NoImageFound?
      ensures forall i | 0 <= i < |made| :: Loads(made[i]) <==> end.Handoff? && i == |made| - 1
      ensures end.NoImageFound? ==> forall k: nat | Candidate(made[0].slot, k) :: Tried(made, k)
    {
      hide Loads, Candidate, Inherits, HandedOver;
      forall i | 0 <= i < |made|
        ensures Loads(made[i]) <==> end.Handoff? && i == |made| - 1
      {
        assert i < |made| - 1 ==> GoesOn(made, tries, i);
      }
    }

    /** The image in a slot boots from reset when no operation fails. */
    ghost predicate Sound(slot: nat) {
      Boots(mover.cfg, Never(), table(slot), Neither, 0)
    }

    /** The first partition of the image that the loader owns says what it is. */
    ghost predicate SpeaksForItself(slot: nat)
      requires |table(slot)| == MAX_PARTITION_NUMBER
    {
      forall count | BootWalk.Counts(table(slot), count) :: Independent(mover.cfg, table(slot), count)
    }

    ghost predicate LeastSound(start: nat, slot: nat) {
      Candidate(start, slot) && Sound(slot) && forall k: nat | k < slot && Candidate(start, k) :: !Sound(k)
    }

    /** Where besides no operation fails, and the candidates' images speak for themselves, the
        flags do not matter: the chain hands over to the least candidate that is sound, and
        finds no image exactly when none is. */
    lemma LeastSoundIsLoaded(made: seq<Attempt>, tries: nat, log: seq<Op>, end: End)
      requires Chain(made, tries, log, end)
      requires flashBoot && aesFuse && systemInit && !fabricFails(tries + |made|)
      requires forall slot :: |table(slot)| == MAX_PARTITION_NUMBER
      requires forall slot | Candidate(made[0].slot, slot) :: SpeaksForItself(slot)
      requires forall k :: !mover.fails(k)
      ensures forall slot: nat :: end.Handoff? && end.slot == slot <==> LeastSound(made[0].slot, slot)
      ensures end.NoImageFound? <==> forall slot: nat | Candidate(made[0].slot, slot) :: !Sound(slot)
    {
      hide Candidate, SpeaksForItself, HandedOver, Inherits, Sound, Loads;
      GoldenImage(made, tries, log, end);
      forall i | 0 <= i < |made|
        ensures Sound(made[i].slot) <==> end.Handoff? && i == |made| - 1
      {
        LoadsIfSound(made[i]);
      }
      forall slot: nat | Tried(made, slot)
        ensures Sound(slot) <==> end.Handoff? && end.slot == slot
      {
        var i :| 0 <= i < |made| && made[i].slot == slot;
      }
    }

    lemma LoadsIfSound(a: Attempt)
      requires |table(a.slot)| == MAX_PARTITION_NUMBER && SpeaksForItself(a.slot)
      requires forall k :: !mover.fails(k)
      ensures Loads(a) <==> Sound(a.slot)
    {
      hide Boots, Independent, BootWalk.Counts;
      if Loads(a) {
        BootsAlike(mover.cfg, mover.fails, Never(), table(a.slot), a.kind, Neither, a.start, 0);
      }
      if Sound(a.slot) {
        BootsAlike(mover.cfg, Never(), mover.fails, table(a.slot), Neither, a.kind, 0, a.start);
      }
    }
  }

  function Never(): nat -> bool {
    k => false
  }

  /** An image that speaks for itself boots from any flags if it boots from some, as long as
      nothing fails. */
  lemma BootsAlike(cfg: Config, fails: nat -> bool, fails': nat -> bool, headers: seq<Header>, k: Kind, l: Kind, start: nat, start': nat)
    requires forall count | BootWalk.Counts(headers, count) :: Independent(cfg, headers, count)
    requires forall i :: !fails'(i)
    requires Boots(cfg, fails, headers, k, start)
    ensures Boots(cfg, fails', headers, l, start')
  {
    hide BootWalk.Counts, BootWalk.WalkTo, BootWalk.Ops, BootWalk.Prelude, BootWalk.CountFits, BootWalk.Supported,
      BootWalk.Passes, BootWalk.VerdictAt, Typed, FirstOwned, NoneOwned;
    var count, stop :| HandsOver(cfg, fails, headers, k, start, count, stop);
    CountsLength(headers, count);
    assert Independent(cfg, headers, count);
    WalkedAlike(cfg, headers, l, k, stop);
    if stop < count {
      AlikeStep(cfg, headers, l, k, stop);
    }
    assert HandsOver(cfg, fails', headers, l, start', count, stop);
  }

  lemma CountsLength(headers: seq<Header>, count: nat)
    requires BootWalk.Counts(headers, count)
    ensures count <= |headers|
  {
  }

  // ---------------------------------------------------------------------------------
  // Leftover flags
  // ---------------------------------------------------------------------------------

  /** An image of one partition beside the loader's own. */
  ghost predicate OnePartition(cfg: BootPlan.Config, headers: seq<Header>) {
    && !cfg.mmc && !cfg.headerAuth && !cfg.encOnly
    && BootWalk.Counts(headers, 2)
    && ValidHeader(headers[1]) && OwnedByFsbl(headers[1])
  }

  /** An application whose first operation fails leaves the flags at application. */
  lemma FailedApplicationLeaves(cfg: BootPlan.Config, headers: seq<Header>, start: nat, fails: nat -> bool)
    requires OnePartition(cfg, headers) && HasPs(headers[1]) && fails(start)
    requires cfg.ddrStart <= LoadAddr(headers[1]) <= cfg.ddrEnd
    ensures Leaves(cfg, fails, headers, Neither, start, Ps, start + 1)
  {
    hide BootWalk.Counts, ValidHeader, OwnedByFsbl;
    CountsLength(headers, 2);
    var w := BootWalk.WalkTo(cfg, headers, Neither, 1);
    assert |Plan(cfg, 1, headers[1], Ps)| >= 1;
    assert FallsAt(cfg, fails, headers, Neither, start, 2, 1, start + 1);
    assert LeavesAt(cfg, fails, headers, Neither, start, 2, 1, Ps, start + 1);
  }

  /** A data partition below the DDR boots from reset, and is refused after that application. */
  lemma RefusedWhenLeft(cfg: BootPlan.Config, headers: seq<Header>, start: nat, fails: nat -> bool)
    requires OnePartition(cfg, headers) && !Typed(headers[1]) && !Verified(headers[1])
    requires 0 < LoadAddr(headers[1]) < cfg.ddrStart
    requires forall k | k >= start :: !fails(k)
    ensures Boots(cfg, fails, headers, Neither, start)
    ensures !Boots(cfg, fails, headers, Ps, start)
  {
    hide BootWalk.Counts, ValidHeader, OwnedByFsbl;
    CountsLength(headers, 2);
    RefusedAfterApplication(cfg, headers[1]);
    assert BootWalk.WalkTo(cfg, headers, Neither, 1) == BootWalk.Walk(Neither, false, BootWalk.None, []);
    assert BootWalk.WalkTo(cfg, headers, Ps, 1) == BootWalk.Walk(Ps, false, BootWalk.None, []);
    assert BootWalk.VerdictAt(cfg, headers, Neither, 1).Take?;
    assert BootWalk.WalkTo(cfg, headers, Neither, 2).taken == [BootWalk.Taken(1, headers[1], Neither)];
    assert HandsOver(cfg, fails, headers, Neither, start, 2, 2);
    assert BootWalk.VerdictAt(cfg, headers, Ps, 1).Reject?;
    if c, s :| HandsOver(cfg, fails, headers, Ps, start, c, s) {
      CountIsUnique(headers, c, 2);
    }
  }

  /** A golden image of one such data partition is fine from reset, and refused once the image
      before it has failed at its application. */
  lemma GoldenImageRefused(cfg: BootPlan.Config, first: seq<Header>, golden: seq<Header>, start: nat, fails: nat -> bool)
    requires OnePartition(cfg, first) && HasPs(first[1]) && cfg.ddrStart <= LoadAddr(first[1]) <= cfg.ddrEnd
    requires OnePartition(cfg, golden) && !Typed(golden[1]) && !Verified(golden[1]) && 0 < LoadAddr(golden[1]) < cfg.ddrStart
    requires forall k :: fails(k) <==> k == start
    ensures Leaves(cfg, fails, first, Neither, start, Ps, start + 1)
    ensures Boots(cfg, fails, golden, Neither, start + 1) && !Boots(cfg, fails, golden, Ps, start + 1)
  {
    hide OnePartition, Typed, Verified, Leaves, Boots;
    FailedApplicationLeaves(cfg, first, start, fails);
    RefusedWhenLeft(cfg, golden, start + 1, fails);
  }
}
