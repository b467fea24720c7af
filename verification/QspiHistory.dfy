/** When a banked QSPI read (LAB_2/hdf/qspi.c) returns the flat slice, for one read and
    after any history of reads. */
module QspiHistory {
  import opened Bytes
  import opened QspiSpace
  import opened QspiTransfers
  import opened QspiProgress

  // ---------------------------------------------------------------------------------
  // When a read returns the flat slice
  // ---------------------------------------------------------------------------------

  /** No byte of the range lies in bank 0 of a chip whose register is not 0, and a
      parallel read starts at an even address. */
  predicate Faithful(mode: Connection, chipSize: nat, lb: nat, ub: nat, source: nat, n: nat) {
    n == 0 ||
    match mode
    case Single => lb == 0 || source >= 0x1000000
    case Stacked =>
      && (lb == 0 || source >= 0x1000000)
      && (ub == 0 || source + n <= chipSize || source >= chipSize + 0x1000000)
    case Parallel =>
      && source % 2 == 0
      && (source >= 0x2000000 || (lb == 0 && (ub == 0 || n == 1)))
  }

  /** A chip that holds 0 in bank 0 and 1 everywhere else. */
  function Marked(size: nat): (chip: seq<Byte>)
    ensures |chip| == size
  {
    seq(size, i => if i < 0x1000000 then 0 else 1)
  }

  lemma ObservedIsFlat(mode: Connection, lower: seq<Byte>, upper: seq<Byte>, lb: nat, ub: nat, source: nat, n: nat, i: nat)
    requires IsFlash(mode, lower, upper) && source + n <= FlashSize(mode, |lower|) && i < n
    requires lb < BankOf(|lower|) && (mode.Single? || ub < BankOf(|lower|))
    requires Faithful(mode, |lower|, lb, ub, source, n)
    ensures Observed(mode, lower, upper, lb, ub, Source(mode, source) + i) == Flat(mode, lower, upper, source + i)
  {
  }

  lemma StaleByte(mode: Connection, size: nat, lb: nat, ub: nat, source: nat, n: nat) returns (at: nat)
    requires IsChipSize(size) && source + n <= FlashSize(mode, size)
    requires lb < BankOf(size) && (mode.Single? || ub < BankOf(size))
    requires !Faithful(mode, size, lb, ub, source, n)
    requires !(mode.Parallel? && source % 2 != 0)
    ensures source <= at < source + n
    ensures var upper := if mode.Single? then [] else Marked(size);
            Observed(mode, Marked(size), upper, lb, ub, at) != Flat(mode, Marked(size), upper, at)
  {
    at := if mode.Stacked? && !(lb != 0 && source < 0x1000000) then (if source > size then source else size)
          else if mode.Parallel? && lb == 0 then source + 1
          else source;
  }

  lemma FaithfulSuffices(mode: Connection, lower: seq<Byte>, upper: seq<Byte>, lb: nat, ub: nat, source: nat, n: nat)
    requires IsFlash(mode, lower, upper) && source + n <= FlashSize(mode, |lower|)
    requires lb < BankOf(|lower|) && (mode.Single? || ub < BankOf(|lower|))
    requires Faithful(mode, |lower|, lb, ub, source, n)
    ensures ObservedSlice(mode, lower, upper, lb, ub, Source(mode, source), n) == FlatSlice(mode, lower, upper, source, n)
  {
    var observed := ObservedSlice(mode, lower, upper, lb, ub, Source(mode, source), n);
    var flat := FlatSlice(mode, lower, upper, source, n);
    forall i | 0 <= i < n
      ensures observed[i] == flat[i]
    {
      ObservedIsFlat(mode, lower, upper, lb, ub, source, n, i);
    }
  }

  /** A read returns the flat slice, whatever the chips hold, exactly when it is Faithful. */
  lemma FlatExactlyWhenFaithful(mode: Connection, size: nat, lb: nat, ub: nat, source: nat, n: nat)
    requires IsChipSize(size) && source + n <= FlashSize(mode, size)
    requires lb < BankOf(size) && (mode.Single? || ub < BankOf(size))
    ensures (forall lower, upper | |lower| == size && IsFlash(mode, lower, upper) ::
               ObservedSlice(mode, lower, upper, lb, ub, Source(mode, source), n)
               == FlatSlice(mode, lower, upper, source, n))
            <==> Faithful(mode, size, lb, ub, source, n)
  {
    if Faithful(mode, size, lb, ub, source, n) {
      forall lower, upper | |lower| == size && IsFlash(mode, lower, upper)
        ensures ObservedSlice(mode, lower, upper, lb, ub, Source(mode, source), n)
                == FlatSlice(mode, lower, upper, source, n)
      {
        FaithfulSuffices(mode, lower, upper, lb, ub, source, n);
      }
    } else if mode.Parallel? && source % 2 != 0 {
      var lower, upper := seq(size, _ => 0 as Byte), seq(size, _ => 1 as Byte);
      assert IsFlash(mode, lower, upper);
      assert Observed(mode, lower, upper, lb, ub, Source(mode, source) + 0) == 0;
      assert Flat(mode, lower, upper, source + 0) == 1;
      assert ObservedSlice(mode, lower, upper, lb, ub, Source(mode, source), n)[0]
             != FlatSlice(mode, lower, upper, source, n)[0];
    } else {
      var lower, upper := Marked(size), if mode.Single? then [] else Marked(size);
      assert IsFlash(mode, lower, upper);
      var at := StaleByte(mode, size, lb, ub, source, n);
      assert at == source + (at - source);
      assert ObservedSlice(mode, lower, upper, lb, ub, source, n)[at - source]
             != FlatSlice(mode, lower, upper, source, n)[at - source];
    }
  }

  /** The flat byte lies where a register of 0 reads it. */
  lemma FlatAtSpot(mode: Connection, lower: seq<Byte>, upper: seq<Byte>, logical: nat)
    requires IsFlash(mode, lower, upper) && logical < FlashSize(mode, |lower|)
    ensures var at := Spot(mode, |lower|, 0, 0, logical);
            && at < |lower| && (InUpper(mode, |lower|, logical) ==> |upper| == |lower|)
            && Flat(mode, lower, upper, logical) == if InUpper(mode, |lower|, logical) then upper[at] else lower[at]
  {
  }

  /** A flat byte and one observed a transfer before it, in the other chip if a parallel read
      starts oddly, differ on some chips. */
  lemma FlatChips(mode: Connection, size: nat, lb: nat, ub: nat, x: nat, y: nat) returns (lower: seq<Byte>, upper: seq<Byte>)
    requires IsChipSize(size) && Registers(mode, size, lb, ub) && x < y < FlashSize(mode, size)
    requires mode.Parallel? ==> x % 2 == 0
    requires y - x <= DATA_SIZE || (mode.Parallel? && y % 2 == 1)
    ensures IsFlash(mode, lower, upper) && |lower| == size
    ensures Flat(mode, lower, upper, y) != Observed(mode, lower, upper, lb, ub, x)
  {
    if !(mode.Parallel? && y % 2 == 1) {
      SpotsDiffer(mode, size, lb, ub, 0, 0, x, y - x);
    }
    var inUpper, place := InUpper(mode, size, y), Spot(mode, size, 0, 0, y);
    assert InUpper(mode, size, x) == inUpper ==> Spot(mode, size, lb, ub, x) != place;
    lower := OneAt(size, if inUpper then size else place);
    upper := if mode.Single? then [] else OneAt(size, if inUpper then place else size);
    assert IsFlash(mode, lower, upper);
    hide *;
    ObservedAtSpot(mode, lower, upper, lb, ub, x);
    FlatAtSpot(mode, lower, upper, y);
  }

  lemma FlatWithout(mode: Connection, size: nat, y: nat, b: Byte) returns (lower: seq<Byte>, upper: seq<Byte>)
    requires IsChipSize(size) && y < FlashSize(mode, size)
    ensures IsFlash(mode, lower, upper) && |lower| == size && Flat(mode, lower, upper, y) != b
  {
    var v: Byte := if b == 0 then 1 else 0;
    lower, upper := seq(size, _ => v), if mode.Single? then [] else seq(size, _ => v);
    hide Spot, Flat, InUpper;
    FlatAtSpot(mode, lower, upper, y);
  }

  /** What a successful read delivers: the observed slice, with stale bytes where transfers fail. */
  ghost function Delivered(mode: Connection, lower: seq<Byte>, upper: seq<Byte>, lb: nat, ub: nat, source: nat, n: nat,
      fails: nat -> bool, k: nat, buffer: seq<Byte>): (r: seq<Byte>)
    requires IsFlash(mode, lower, upper) && Registers(mode, |lower|, lb, ub)
    requires source + n <= FlashSize(mode, |lower|) && |buffer| == DATA_SIZE
    ensures |r| == n
  {
    Arrives(mode, lower, upper, lb, ub, Source(mode, source), n, fails, k, buffer)
  }

  /** Chips on which the flat byte where a read first fails is not what the buffer holds there. */
  lemma SpoiledChips(mode: Connection, size: nat, lb: nat, ub: nat, source: nat, f: Miss, b: Byte)
    returns (lower: seq<Byte>, upper: seq<Byte>)
    requires IsChipSize(size) && Registers(mode, size, lb, ub) && source + f.at < FlashSize(mode, size)
    requires f.at == 0 || 0 < f.at - f.before <= DATA_SIZE
    requires mode.Parallel? ==> f.before % 2 == 0 && f.at % 2 == 0
    ensures IsFlash(mode, lower, upper) && |lower| == size
    ensures Flat(mode, lower, upper, source + f.at) !=
            if f.at == 0 then b else Observed(mode, lower, upper, lb, ub, Source(mode, source) + f.before)
  {
    hide Observed, Flat;
    if f.at == 0 {
      lower, upper := FlatWithout(mode, size, source, b);
    } else {
      lower, upper := FlatChips(mode, size, lb, ub, Source(mode, source) + f.before, source + f.at);
    }
  }

  lemma FlatSliceAt(mode: Connection, lower: seq<Byte>, upper: seq<Byte>, from: nat, n: nat, i: nat)
    requires IsFlash(mode, lower, upper) && from + n <= FlashSize(mode, |lower|) && i < n
    ensures |FlatSlice(mode, lower, upper, from, n)| == n
    ensures FlatSlice(mode, lower, upper, from, n)[i] == Flat(mode, lower, upper, from + i)
  {
  }

  lemma FlatPrefix(mode: Connection, lower: seq<Byte>, upper: seq<Byte>, from: nat, n: nat, m: nat)
    requires IsFlash(mode, lower, upper) && n <= m && from + m <= FlashSize(mode, |lower|)
    ensures FlatSlice(mode, lower, upper, from, m)[..n] == FlatSlice(mode, lower, upper, from, n)
  {
  }

  lemma FailureSpoils(mode: Connection, size: nat, lb: nat, ub: nat, source: nat, n: nat,
      fails: nat -> bool, k: nat, buffer: seq<Byte>) returns (lower: seq<Byte>, upper: seq<Byte>)
    requires IsChipSize(size) && source + n <= FlashSize(mode, size) && Registers(mode, size, lb, ub) && |buffer| == DATA_SIZE
    requires !NoneFails(fails, k, k + |Schedule(mode, size, Source(mode, source), n)|)
    ensures IsFlash(mode, lower, upper) && |lower| == size
    ensures Delivered(mode, lower, upper, lb, ub, source, n, fails, k, buffer) != FlatSlice(mode, lower, upper, source, n)
  {
    var from := Source(mode, source);
    hide Schedule, Observed, NoneFails, FirstFailure, Total, Received, Fit, Chunk, Flat, ObservedSlice, FlatSlice, Source, FlashSize;
    var chunks := Schedule(mode, size, from, n);
    var f := FirstFailure(chunks, fails, k);
    FitMeans(mode, chunks);
    FirstFailureGap(mode, chunks, fails, k);
    if mode.Parallel? {
      FirstFailureEven(mode, chunks, fails, k);
    }
    lower, upper := SpoiledChips(mode, size, lb, ub, source, f, buffer[0]);
    SliceAt(mode, lower, upper, lb, ub, from, n, f.before);
    FlatSliceAt(mode, lower, upper, source, n, f.at);
    StaleDiffers(ObservedSlice(mode, lower, upper, lb, ub, from, n), chunks, fails, k, buffer,
                 FlatSlice(mode, lower, upper, source, n));
  }

  /** A successful read delivers the flat slice, whatever the chips hold, exactly when it is
      Faithful and none of its transfers fails. */
  lemma FlatDeliveredExactlyWhen(mode: Connection, size: nat, lb: nat, ub: nat, source: nat, n: nat,
      fails: nat -> bool, k: nat, buffer: seq<Byte>)
    requires IsChipSize(size) && source + n <= FlashSize(mode, size) && Registers(mode, size, lb, ub) && |buffer| == DATA_SIZE
    ensures (forall lower, upper | |lower| == size && IsFlash(mode, lower, upper) ::
               Delivered(mode, lower, upper, lb, ub, source, n, fails, k, buffer)
               == FlatSlice(mode, lower, upper, source, n))
            <==> Faithful(mode, size, lb, ub, source, n)
                 && NoneFails(fails, k, k + |Schedule(mode, size, Source(mode, source), n)|)
  {
    var chunks := Schedule(mode, size, Source(mode, source), n);
    FitMeans(mode, chunks);
    FlatExactlyWhenFaithful(mode, size, lb, ub, source, n);
    hide Schedule, Observed, Flat, NoneFails, Received, Faithful, Total, Fit;
    if NoneFails(fails, k, k + |chunks|) {
      forall lower, upper | |lower| == size && IsFlash(mode, lower, upper)
        ensures Delivered(mode, lower, upper, lb, ub, source, n, fails, k, buffer)
                == ObservedSlice(mode, lower, upper, lb, ub, Source(mode, source), n)
      {
        ArrivesWhole(mode, lower, upper, lb, ub, Source(mode, source), n, fails, k, buffer);
      }
    } else {
      var lower, upper := FailureSpoils(mode, size, lb, ub, source, n, fails, k, buffer);
    }
  }

  // ---------------------------------------------------------------------------------
  // Histories of reads
  // ---------------------------------------------------------------------------------

  datatype Request = Request(source: nat, length: nat)

  /** The bank registers after a history of successful reads from reset. */
  function BanksAfter(mode: Connection, size: nat, history: seq<Request>): (nat, nat)
    requires size > 0
  {
    if history == [] then (0, 0)
    else
      var (lb, ub) := BanksAfter(mode, size, history[..|history| - 1]);
      var last := history[|history| - 1];
      (LowerBankAfter(mode, size, lb, last.source, last.length),
       UpperBankAfter(mode, size, ub, last.source, last.length))
  }

  predicate OnlyUpper(mode: Connection, size: nat, r: Request) {
    mode.Stacked? && r.source >= size && r.length > 0
  }

  /** Some read ran from the lower chip into the upper one, and only the upper chip was read since. */
  ghost predicate LeftBehind(mode: Connection, size: nat, history: seq<Request>) {
    exists k | 0 <= k < |history| ::
      && RunsIntoUpper(mode, size, history[k].source, history[k].length)
      && forall j | k < j < |history| :: OnlyUpper(mode, size, history[j])
  }

  lemma LeftBehindStep(mode: Connection, size: nat, history: seq<Request>)
    requires history != []
    ensures var init, last := history[..|history| - 1], history[|history| - 1];
            LeftBehind(mode, size, history) <==>
            RunsIntoUpper(mode, size, last.source, last.length) ||
            (OnlyUpper(mode, size, last) && LeftBehind(mode, size, init))
  {
  }

  /** After any history the upper register is 0, and the lower one is 0 too unless a
      read was left behind: then it still points at the lower chip's last bank. */
  lemma {:induction false} BanksAfterHistory(mode: Connection, size: nat, history: seq<Request>)
    requires IsChipSize(size)
    ensures BanksAfter(mode, size, history) ==
            (if LeftBehind(mode, size, history) then BankOf(size) - 1 else 0, 0)
  {
    if history != [] {
      BanksAfterHistory(mode, size, history[..|history| - 1]);
      LeftBehindStep(mode, size, history);
      assert BankOf(size - 1) == BankOf(size) - 1;
    }
  }

  /** The reads that are wrong after a history: they start in bank 0 of a lower chip of
      more than one bank that was left behind, or at an odd address in parallel mode. */
  lemma FlatAfterHistory(mode: Connection, size: nat, history: seq<Request>, source: nat, n: nat)
    requires IsChipSize(size) && source + n <= FlashSize(mode, size)
    ensures var (lb, ub) := BanksAfter(mode, size, history);
            && lb < BankOf(size) && ub < BankOf(size)
            && ((forall lower, upper | |lower| == size && IsFlash(mode, lower, upper) ::
                   ObservedSlice(mode, lower, upper, lb, ub, Source(mode, source), n)
                   == FlatSlice(mode, lower, upper, source, n))
                <==>
                n == 0 ||
                if mode.Parallel? then source % 2 == 0
                else !(LeftBehind(mode, size, history) && size > 0x1000000 && source < 0x1000000))
  {
    var (lb, ub) := BanksAfter(mode, size, history);
    BanksAfterHistory(mode, size, history);
    if LeftBehind(mode, size, history) {
      var k :| 0 <= k < |history| && RunsIntoUpper(mode, size, history[k].source, history[k].length);
      assert mode.Stacked?;
    }
    FlatExactlyWhenFaithful(mode, size, lb, ub, source, n);
  }

  /** Two stacked chips of 32 MB: a read of the last byte of the lower chip and the first of
      the upper one leaves the lower chip in bank 1, and the next read of address 0 returns the
      byte at 0x1000000. */
  lemma StaleReadOccurs()
    ensures var size, chip := 0x2000000, Marked(0x2000000);
            && BanksAfter(Stacked, size, [Request(size - 1, 2)]) == (1, 0)
            && IsFlash(Stacked, chip, chip)
            && ObservedSlice(Stacked, chip, chip, 1, 0, 0, 1) == [1]
            && FlatSlice(Stacked, chip, chip, 0, 1) == [0]
  {
    var chip := Marked(0x2000000);
    assert chip[0x1000000] == 1 && (chip + chip)[0] == 0;
    assert [Request(0x1FFFFFF, 2)][..0] == [];
  }

  // ---------------------------------------------------------------------------------
  // Histories with reads that fail
  // ---------------------------------------------------------------------------------

  predicate IsChips(mode: Connection, size: nat, s: Chips) {
    Registers(mode, size, s.lb, s.ub) && (s.stuck ==> mode.Stacked?)
  }

  /** From a state a read is faithful; with the upper chip left selected, only if it lies in the
      upper half and not in its bank 0 unless that chip's register is 0. */
  predicate FaithfulFrom(mode: Connection, size: nat, s: Chips, source: nat, n: nat) {
    if s.stuck then n == 0 || (source >= size && (s.ub == 0 || source >= size + 0x1000000))
    else Faithful(mode, size, s.lb, s.ub, source, n)
  }

  /** What a read from a state observes. */
  ghost function Served(mode: Connection, lower: seq<Byte>, upper: seq<Byte>, s: Chips, source: nat, n: nat): (bytes: seq<Byte>)
    requires IsFlash(mode, lower, upper) && IsChips(mode, |lower|, s) && source + n <= FlashSize(mode, |lower|)
    ensures |bytes| == n
  {
    var b := BoardOf(mode, lower, upper, s, source);
    ObservedSlice(b.mode, b.lower, b.upper, b.lb, b.ub, Source(mode, source), n)
  }

  /** In the upper half the selected chip is the right one. */
  lemma StuckInUpper(lower: seq<Byte>, upper: seq<Byte>, s: Chips, source: nat, n: nat)
    requires IsFlash(Stacked, lower, upper) && IsChips(Stacked, |lower|, s) && source + n <= 2 * |lower|
    requires s.stuck && source >= |lower|
    ensures Served(Stacked, lower, upper, s, source, n) == ObservedSlice(Stacked, lower, upper, s.lb, s.ub, source, n)
  {
    forall i | 0 <= i < n
      ensures Served(Stacked, lower, upper, s, source, n)[i] == ObservedSlice(Stacked, lower, upper, s.lb, s.ub, source, n)[i]
    {
      SliceAt(Stacked, upper, upper, s.ub, s.ub, source, n, i);
      SliceAt(Stacked, lower, upper, s.lb, s.ub, source, n, i);
    }
  }

  /** A read from any state returns the flat slice, whatever the chips hold, exactly when it is
      faithful from there. */
  lemma FlatFromExactlyWhen(mode: Connection, size: nat, s: Chips, source: nat, n: nat)
    requires IsChipSize(size) && source + n <= FlashSize(mode, size) && IsChips(mode, size, s)
    ensures (forall lower, upper | |lower| == size && IsFlash(mode, lower, upper) ::
               Served(mode, lower, upper, s, source, n) == FlatSlice(mode, lower, upper, source, n))
            <==> FaithfulFrom(mode, size, s, source, n)
  {
    hide Observed, Flat, ObservedSlice;
    FlatExactlyWhenFaithful(mode, size, s.lb, s.ub, source, n);
    if s.stuck && source >= size {
      forall lower, upper | |lower| == size && IsFlash(mode, lower, upper)
        ensures Served(mode, lower, upper, s, source, n) == ObservedSlice(mode, lower, upper, s.lb, s.ub, Source(mode, source), n)
      {
        StuckInUpper(lower, upper, s, source, n);
      }
    } else if s.stuck && n > 0 {
      WrongChip(size, s, source, n);
    }
  }

  lemma WrongChip(size: nat, s: Chips, source: nat, n: nat)
    requires IsChipSize(size) && source + n <= 2 * size && IsChips(Stacked, size, s) && s.stuck && source < size && n > 0
    ensures var lower, upper := seq(size, _ => 0 as Byte), seq(size, _ => 1 as Byte);
            IsFlash(Stacked, lower, upper)
            && Served(Stacked, lower, upper, s, source, n) != FlatSlice(Stacked, lower, upper, source, n)
  {
    var lower, upper := seq(size, _ => 0 as Byte), seq(size, _ => 1 as Byte);
    var b := StuckBoard(upper, s.ub, source);
    SliceAt(Stacked, upper, upper, b.lb, b.ub, source, n, 0);
    assert Served(Stacked, lower, upper, s, source, n)[0] == 1;
    FlatSliceAt(Stacked, lower, upper, source, n, 0);
    assert (lower + upper)[source] == lower[source];
  }

  /** A read that succeeds, or one given up that leaves the chips as stated. */
  datatype Event = Done(r: Request) | GivenUp(r: Request, left: Chips)

  function ChipsAfter(mode: Connection, size: nat, history: seq<Event>): Chips
    requires size > 0
  {
    if history == [] then Chips(0, 0, false)
    else
      var s, last := ChipsAfter(mode, size, history[..|history| - 1]), history[|history| - 1];
      match last
      case GivenUp(_, left) => left
      case Done(r) =>
        if s.stuck then Chips(s.lb, 0, false)
        else Chips(LowerBankAfter(mode, size, s.lb, r.source, r.length), UpperBankAfter(mode, size, s.ub, r.source, r.length), false)
  }

  /** A read given up may leave any banks behind, and the upper chip selected only if it was or
      the read reached into the upper half. */
  ghost predicate Possible(mode: Connection, size: nat, history: seq<Event>)
    requires size > 0
  {
    forall k | 0 <= k < |history| && history[k].GivenUp? ::
      var r, left := history[k].r, history[k].left;
      && IsChips(mode, size, left)
      && (left.stuck ==>
            ChipsAfter(mode, size, history[..k]).stuck || (mode.Stacked? && r.length > 0 && r.source + r.length > size))
  }

  lemma {:induction false} ChipsStay(mode: Connection, size: nat, history: seq<Event>)
    requires IsChipSize(size) && Possible(mode, size, history)
    ensures IsChips(mode, size, ChipsAfter(mode, size, history))
  {
    if history != [] {
      var n := |history| - 1;
      PossibleBefore(mode, size, history, n);
      ChipsStay(mode, size, history[..n]);
      assert BankOf(size - 1) == BankOf(size) - 1;
    }
  }

  lemma PossibleBefore(mode: Connection, size: nat, history: seq<Event>, n: nat)
    requires size > 0 && n <= |history| && Possible(mode, size, history)
    ensures Possible(mode, size, history[..n])
  {
    hide ChipsAfter, IsChips;
    forall k | 0 <= k < n
      ensures history[..n][k] == history[k] && history[..n][..k] == history[..k]
    {
    }
  }

  /** After any history of reads, failed ones among them, the next read returns the flat slice,
      whatever the chips hold, exactly when it is faithful from the state they left. */
  lemma FlatAfterFailures(mode: Connection, size: nat, history: seq<Event>, source: nat, n: nat)
    requires IsChipSize(size) && source + n <= FlashSize(mode, size) && Possible(mode, size, history)
    ensures var s := ChipsAfter(mode, size, history);
            && IsChips(mode, size, s)
            && ((forall lower, upper | |lower| == size && IsFlash(mode, lower, upper) ::
                   Served(mode, lower, upper, s, source, n) == FlatSlice(mode, lower, upper, source, n))
                <==> FaithfulFrom(mode, size, s, source, n))
  {
    hide ChipsAfter, Served, FaithfulFrom, IsChips, Possible;
    ChipsStay(mode, size, history);
    FlatFromExactlyWhen(mode, size, ChipsAfter(mode, size, history), source, n);
  }

  /** Without failures this is the history of registers. */
  lemma {:induction false} WithoutFailures(mode: Connection, size: nat, history: seq<Event>)
    requires size > 0 && forall k | 0 <= k < |history| :: history[k].Done?
    ensures var requests := seq(|history|, k requires 0 <= k < |history| => history[k].r);
            var (lb, ub) := BanksAfter(mode, size, requests);
            ChipsAfter(mode, size, history) == Chips(lb, ub, false)
  {
    if history != [] {
      var n := |history| - 1;
      WithoutFailures(mode, size, history[..n]);
      var requests := seq(|history|, k requires 0 <= k < |history| => history[k].r);
      assert requests[..n] == seq(n, k requires 0 <= k < n => history[..n][k].r);
    }
  }

  /** Whatever went before, a successful read in the upper half and then one in the lower half
      put two stacked chips back as they were at reset. */
  lemma Recovers(size: nat, history: seq<Event>, r: Request, r': Request)
    requires size > 0 && r.source >= size && r.length > 0 && r'.source + r'.length <= size
    ensures ChipsAfter(Stacked, size, history + [Done(r), Done(r')]) == Chips(0, 0, false)
  {
    var all := history + [Done(r), Done(r')];
    assert all[..|all| - 1] == history + [Done(r)];
    assert (history + [Done(r)])[..|history|] == history;
  }

  // ---------------------------------------------------------------------------------
  // The flat space
  // ---------------------------------------------------------------------------------

  /** Stacked chips hold the two halves; parallel chips hold the even and the odd bytes. */
  lemma FlatLayout(lower: seq<Byte>, upper: seq<Byte>, i: nat)
    requires IsChipSize(|lower|) && |upper| == |lower| && i < |lower|
    ensures Flat(Stacked, lower, upper, i) == lower[i] && Flat(Stacked, lower, upper, |lower| + i) == upper[i]
    ensures Flat(Parallel, lower, upper, 2 * i) == lower[i] && Flat(Parallel, lower, upper, 2 * i + 1) == upper[i]
    ensures Flat(Single, lower, [], i) == lower[i]
  {
  }
}
