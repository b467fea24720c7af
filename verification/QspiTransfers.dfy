/** The data transfers of a banked QSPI read (LAB_2/hdf/qspi.c), and what arrives when some
    of them fail: their status is not looked at, so a failed one delivers what the buffer
    held before it. */
module QspiTransfers {
  import opened Bytes
  import opened QspiSpace

  /** Bytes of a chunk that each chip supplies. */
  ghost function ChipSpan(mode: Connection, chunk: nat): nat {
    if mode.Parallel? then (chunk + 1) / 2 else chunk
  }

  /** How far a chunk moves the chip address. */
  function Stride(mode: Connection, chunk: nat): nat {
    if mode.Parallel? then chunk / 2 else chunk
  }

  /** How much of a chunk lies in the bank of address `a`, and whether the next
      chunk has to switch banks. */
  function Chunk(mode: Connection, a: nat, length: nat): (r: (nat, bool))
    requires 0 < length <= DATA_SIZE && a + length < 0x10000000
    ensures 0 < r.0 <= length
    ensures mode.Parallel? && r.0 < length ==> r.0 % 2 == 0
    ensures InsideOneBank(a, ChipSpan(mode, r.0))
    ensures r.1 <==> (a + Stride(mode, r.0)) % 0x1000000 == 0 && Stride(mode, r.0) > 0
  {
    BankCrossing(a, Stride(mode, length));
    if Masked(a) != Masked(a + Stride(mode, length)) then
      var rest := Masked(a) + 0x1000000 - a;
      (if mode.Parallel? then rest * 2 else rest, true)
    else
      (length, false)
  }

  // ---------------------------------------------------------------------------------
  // The transfers of a read
  // ---------------------------------------------------------------------------------

  /** Lengths of transfers: each fits the buffer, and in parallel mode all but the last are even. */
  predicate Fit(mode: Connection, chunks: seq<nat>) {
    && (forall i | 0 <= i < |chunks| :: 0 < chunks[i] <= DATA_SIZE)
    && (mode.Parallel? ==> forall i | 0 <= i < |chunks| - 1 :: chunks[i] % 2 == 0)
  }

  lemma FitMeans(mode: Connection, chunks: seq<nat>)
    requires Fit(mode, chunks)
    ensures forall i | 0 <= i < |chunks| :: 0 < chunks[i] <= 4096 == DATA_SIZE
  {
  }

  function Total(chunks: seq<nat>): nat {
    if chunks == [] then 0 else chunks[0] + Total(chunks[1..])
  }

  /** The address of a logical byte in its chip. */
  function ChipAddress(mode: Connection, size: nat, logical: nat): nat {
    match mode
    case Single => logical
    case Stacked => if logical >= size then logical - size else logical
    case Parallel => logical / 2
  }

  /** A range a read can be in the middle of: in parallel mode it starts evenly. */
  predicate InRange(mode: Connection, size: nat, logical: nat, n: nat) {
    && IsChipSize(size) && logical + n <= FlashSize(mode, size)
    && (mode.Parallel? && n > 0 ==> logical % 2 == 0)
  }

  /** The length of the next transfer. */
  function NextLength(mode: Connection, size: nat, logical: nat, n: nat): (c: nat)
    requires InRange(mode, size, logical, n) && n > 0
    ensures 0 < c <= n && c <= DATA_SIZE && InRange(mode, size, logical + c, n - c)
    ensures mode.Parallel? && c < n ==> c % 2 == 0
  {
    Chunk(mode, ChipAddress(mode, size, logical), if n > DATA_SIZE then DATA_SIZE else n).0
  }

  /** The lengths of all transfers of a read. */
  function Schedule(mode: Connection, size: nat, logical: nat, n: nat): (chunks: seq<nat>)
    requires InRange(mode, size, logical, n)
    ensures Fit(mode, chunks) && Total(chunks) == n
    decreases n
  {
    if n == 0 then []
    else
      var c := NextLength(mode, size, logical, n);
      var rest := Schedule(mode, size, logical + c, n - c);
      assert rest == [] ==> n == c;
      [c] + rest
  }

  // ---------------------------------------------------------------------------------
  // What arrives
  // ---------------------------------------------------------------------------------

  /** The data part of the buffer after a transfer that should bring `bytes`. */
  function Landed(bytes: seq<Byte>, failed: bool, buffer: seq<Byte>): (b: seq<Byte>)
    requires |bytes| <= |buffer|
    ensures |b| == |buffer|
  {
    if failed then buffer else bytes + buffer[|bytes|..]
  }

  /** What a read delivers that should bring `wanted`, when its transfers, counted from `k`,
      fail as `fails` says and the buffer holds `buffer` before them. */
  function Received(wanted: seq<Byte>, chunks: seq<nat>, fails: nat -> bool, k: nat, buffer: seq<Byte>): (r: seq<Byte>)
    requires Total(chunks) == |wanted| && forall i | 0 <= i < |chunks| :: chunks[i] <= |buffer|
    ensures |r| == |wanted|
    decreases |chunks|
  {
    if chunks == [] then []
    else
      var c := chunks[0];
      var now := Landed(wanted[..c], fails(k), buffer);
      now[..c] + Received(wanted[c..], chunks[1..], fails, k + 1, now)
  }

  ghost predicate NoneFails(fails: nat -> bool, from: nat, to: nat) {
    forall k | from <= k < to :: !fails(k)
  }

  /** With no failure what is wanted arrives. */
  lemma {:induction false} ReceivedWhenNoneFails(wanted: seq<Byte>, chunks: seq<nat>, fails: nat -> bool, k: nat, buffer: seq<Byte>)
    requires Total(chunks) == |wanted| && forall i | 0 <= i < |chunks| :: chunks[i] <= |buffer|
    requires NoneFails(fails, k, k + |chunks|)
    ensures Received(wanted, chunks, fails, k, buffer) == wanted
    decreases |chunks|
  {
    if chunks != [] {
      var c := chunks[0];
      var now := Landed(wanted[..c], false, buffer);
      ReceivedWhenNoneFails(wanted[c..], chunks[1..], fails, k + 1, now);
      assert now[..c] == wanted[..c] && wanted == wanted[..c] + wanted[c..];
    }
  }

  /** If every transfer fails, nothing but old buffer bytes arrives. */
  lemma {:induction false} ReceivedWhenAllFail(wanted: seq<Byte>, chunks: seq<nat>, fails: nat -> bool, k: nat, buffer: seq<Byte>, i: nat)
    requires Total(chunks) == |wanted| && forall i | 0 <= i < |chunks| :: chunks[i] <= |buffer|
    requires i < |wanted| && forall j | k <= j < k + |chunks| :: fails(j)
    ensures Received(wanted, chunks, fails, k, buffer)[i] in buffer
    decreases |chunks|
  {
    var c := chunks[0];
    if i < c {
      assert buffer[..c][i] == buffer[i];
    } else {
      ReceivedWhenAllFail(wanted[c..], chunks[1..], fails, k + 1, buffer, i - c);
    }
  }

  predicate Registers(mode: Connection, size: nat, lb: nat, ub: nat) {
    lb < BankOf(size) && (mode.Single? || ub < BankOf(size))
  }

  /** What a read of a range delivers. */
  ghost function Arrives(mode: Connection, lower: seq<Byte>, upper: seq<Byte>, lb: nat, ub: nat, logical: nat, n: nat,
      fails: nat -> bool, k: nat, buffer: seq<Byte>): (r: seq<Byte>)
    requires IsFlash(mode, lower, upper) && Registers(mode, |lower|, lb, ub)
    requires InRange(mode, |lower|, logical, n) && |buffer| == DATA_SIZE
    ensures |r| == n
  {
    Received(ObservedSlice(mode, lower, upper, lb, ub, logical, n), Schedule(mode, |lower|, logical, n), fails, k, buffer)
  }

  lemma ReceivedStep(wanted: seq<Byte>, chunks: seq<nat>, fails: nat -> bool, k: nat, buffer: seq<Byte>)
    requires Total(chunks) == |wanted| && (forall i | 0 <= i < |chunks| :: chunks[i] <= |buffer|) && chunks != []
    ensures var c := chunks[0];
            && c <= |wanted| && Total(chunks[1..]) == |wanted| - c && (forall i | 0 <= i < |chunks[1..]| :: chunks[1..][i] <= |buffer|)
            && var now := Landed(wanted[..c], fails(k), buffer);
               Received(wanted, chunks, fails, k, buffer) == now[..c] + Received(wanted[c..], chunks[1..], fails, k + 1, now)
  {
  }

  lemma ScheduleStep(mode: Connection, size: nat, logical: nat, n: nat)
    requires InRange(mode, size, logical, n) && n > 0
    ensures var c := NextLength(mode, size, logical, n);
            Schedule(mode, size, logical, n) == [c] + Schedule(mode, size, logical + c, n - c)
  {
    hide NextLength, InRange, Fit, Total;
  }

  lemma SliceParts(mode: Connection, lower: seq<Byte>, upper: seq<Byte>, lb: nat, ub: nat, from: nat, n: nat, c: nat)
    requires IsFlash(mode, lower, upper) && from + n <= FlashSize(mode, |lower|) && c <= n
    requires lb < BankOf(|lower|) && (mode.Single? || ub < BankOf(|lower|))
    ensures ObservedSlice(mode, lower, upper, lb, ub, from, n)[..c] == ObservedSlice(mode, lower, upper, lb, ub, from, c)
    ensures ObservedSlice(mode, lower, upper, lb, ub, from, n)[c..] == ObservedSlice(mode, lower, upper, lb, ub, from + c, n - c)
  {
  }

  lemma ArrivesWhole(mode: Connection, lower: seq<Byte>, upper: seq<Byte>, lb: nat, ub: nat, logical: nat, n: nat,
      fails: nat -> bool, k: nat, buffer: seq<Byte>)
    requires IsFlash(mode, lower, upper) && Registers(mode, |lower|, lb, ub)
    requires InRange(mode, |lower|, logical, n) && |buffer| == DATA_SIZE
    requires NoneFails(fails, k, k + |Schedule(mode, |lower|, logical, n)|)
    ensures Arrives(mode, lower, upper, lb, ub, logical, n, fails, k, buffer) ==
            ObservedSlice(mode, lower, upper, lb, ub, logical, n)
  {
    hide Schedule, Observed, NoneFails, Received, Fit, IsFlash, BankOf;
    var chunks := Schedule(mode, |lower|, logical, n);
    FitMeans(mode, chunks);
    ReceivedWhenNoneFails(ObservedSlice(mode, lower, upper, lb, ub, logical, n), chunks, fails, k, buffer);
  }

  lemma ArrivesStale(mode: Connection, lower: seq<Byte>, upper: seq<Byte>, lb: nat, ub: nat, logical: nat, n: nat,
      fails: nat -> bool, k: nat, buffer: seq<Byte>, i: nat)
    requires IsFlash(mode, lower, upper) && Registers(mode, |lower|, lb, ub)
    requires InRange(mode, |lower|, logical, n) && |buffer| == DATA_SIZE && i < n
    requires forall j | k <= j < k + |Schedule(mode, |lower|, logical, n)| :: fails(j)
    ensures Arrives(mode, lower, upper, lb, ub, logical, n, fails, k, buffer)[i] in buffer
  {
    hide Schedule, Observed, Received, Fit, IsFlash, BankOf;
    var chunks := Schedule(mode, |lower|, logical, n);
    FitMeans(mode, chunks);
    ReceivedWhenAllFail(ObservedSlice(mode, lower, upper, lb, ub, logical, n), chunks, fails, k, buffer, i);
  }

  // ---------------------------------------------------------------------------------
  // A failure shows
  // ---------------------------------------------------------------------------------

  /** How far into a read the first failing transfer starts, and the transfer before it; both
      are 0 if there is none before. */
  datatype Miss = Miss(before: nat, at: nat)

  function FirstFailure(chunks: seq<nat>, fails: nat -> bool, k: nat): (f: Miss)
    requires !NoneFails(fails, k, k + |chunks|)
    ensures f.before <= f.at <= Total(chunks)
    decreases |chunks|
  {
    if fails(k) then Miss(0, 0)
    else
      var f := FirstFailure(chunks[1..], fails, k + 1);
      if f.at == 0 then Miss(0, chunks[0]) else Miss(chunks[0] + f.before, chunks[0] + f.at)
  }

  lemma FitRest(mode: Connection, chunks: seq<nat>)
    requires Fit(mode, chunks) && chunks != []
    ensures Fit(mode, chunks[1..])
  {
  }

  /** One transfer on. */
  lemma FirstFailureStep(chunks: seq<nat>, fails: nat -> bool, k: nat)
    requires !NoneFails(fails, k, k + |chunks|) && !fails(k)
    ensures |chunks| > 1 && !NoneFails(fails, k + 1, k + |chunks|)
    ensures var f := FirstFailure(chunks[1..], fails, k + 1);
            FirstFailure(chunks, fails, k) ==
            if f.at == 0 then Miss(0, chunks[0]) else Miss(chunks[0] + f.before, chunks[0] + f.at)
  {
  }

  /** The two starts are one transfer apart. */
  lemma {:induction false} FirstFailureGap(mode: Connection, chunks: seq<nat>, fails: nat -> bool, k: nat)
    requires Fit(mode, chunks) && !NoneFails(fails, k, k + |chunks|)
    ensures var f := FirstFailure(chunks, fails, k);
            f.at < Total(chunks) && (f.at == 0 || 0 < f.at - f.before <= DATA_SIZE)
    decreases |chunks|
  {
    assert 0 < chunks[0] <= DATA_SIZE;
    if !fails(k) {
      FirstFailureStep(chunks, fails, k);
      FitRest(mode, chunks);
      hide Fit, NoneFails, FirstFailure;
      FirstFailureGap(mode, chunks[1..], fails, k + 1);
    }
  }

  /** In parallel mode both are even. */
  lemma {:induction false} FirstFailureEven(mode: Connection, chunks: seq<nat>, fails: nat -> bool, k: nat)
    requires mode.Parallel? && Fit(mode, chunks) && !NoneFails(fails, k, k + |chunks|)
    ensures var f := FirstFailure(chunks, fails, k); f.before % 2 == 0 && f.at % 2 == 0
    decreases |chunks|
  {
    if !fails(k) {
      FirstFailureStep(chunks, fails, k);
      assert chunks[0] % 2 == 0;
      FitRest(mode, chunks);
      hide *;
      FirstFailureEven(mode, chunks[1..], fails, k + 1);
      var f := FirstFailure(chunks[1..], fails, k + 1);
      EvenAdds(chunks[0], f.before);
      EvenAdds(chunks[0], f.at);
    }
  }

  lemma EvenAdds(a: nat, b: nat)
    requires a % 2 == 0 && b % 2 == 0
    ensures (a + b) % 2 == 0
  {
  }

  /** Where the first failing transfer should bring its first byte, there arrives what the
      buffer holds: the first byte of the transfer before it, or the buffer's own. */
  lemma {:induction false} StaleAt(wanted: seq<Byte>, chunks: seq<nat>, fails: nat -> bool, k: nat, buffer: seq<Byte>)
    requires Total(chunks) == |wanted| && forall i | 0 <= i < |chunks| :: 0 < chunks[i] <= |buffer|
    requires !NoneFails(fails, k, k + |chunks|)
    requires FirstFailure(chunks, fails, k).at < |wanted|
    ensures var f := FirstFailure(chunks, fails, k);
            Received(wanted, chunks, fails, k, buffer)[f.at] == if f.at == 0 then buffer[0] else wanted[f.before]
    decreases |chunks|
  {
    var c := chunks[0];
    var now := Landed(wanted[..c], fails(k), buffer);
    ReceivedStep(wanted, chunks, fails, k, buffer);
    if fails(k) {
      hide Received, Total;
    } else {
      FirstFailureStep(chunks, fails, k);
      var f := FirstFailure(chunks[1..], fails, k + 1);
      assert now[0] == wanted[0] && c + f.at < |wanted| && c + f.before < |wanted|;
      hide Received, Total, NoneFails, FirstFailure, Landed;
      StaleAt(wanted[c..], chunks[1..], fails, k + 1, now);
    }
  }

  lemma StaleDiffers(wanted: seq<Byte>, chunks: seq<nat>, fails: nat -> bool, k: nat, buffer: seq<Byte>, other: seq<Byte>)
    requires Total(chunks) == |wanted| && forall i | 0 <= i < |chunks| :: 0 < chunks[i] <= |buffer|
    requires !NoneFails(fails, k, k + |chunks|)
    requires var f := FirstFailure(chunks, fails, k);
             f.at < |wanted| == |other| && other[f.at] != if f.at == 0 then buffer[0] else wanted[f.before]
    ensures Received(wanted, chunks, fails, k, buffer) != other
  {
    StaleAt(wanted, chunks, fails, k, buffer);
  }

  // ---------------------------------------------------------------------------------
  // Chips that show a failure
  // ---------------------------------------------------------------------------------

  /** Is a logical byte in the upper chip? */
  predicate InUpper(mode: Connection, size: nat, logical: nat) {
    (mode.Stacked? && logical >= size) || (mode.Parallel? && logical % 2 == 1)
  }

  /** The place in its chip from which a logical byte is read. */
  function Spot(mode: Connection, size: nat, lb: nat, ub: nat, logical: nat): (at: nat)
    ensures at % 0x1000000 == ChipAddress(mode, size, logical) % 0x1000000
  {
    var a := ChipAddress(mode, size, logical);
    HeldBank(if InUpper(mode, size, logical) then ub else lb, a) * 0x1000000 + a % 0x1000000
  }

  lemma ObservedAtSpot(mode: Connection, lower: seq<Byte>, upper: seq<Byte>, lb: nat, ub: nat, logical: nat)
    requires IsFlash(mode, lower, upper) && Registers(mode, |lower|, lb, ub) && logical < FlashSize(mode, |lower|)
    ensures var at := Spot(mode, |lower|, lb, ub, logical);
            && at < |lower| && (InUpper(mode, |lower|, logical) ==> |upper| == |lower|)
            && Observed(mode, lower, upper, lb, ub, logical) == if InUpper(mode, |lower|, logical) then upper[at] else lower[at]
  {
  }

  lemma RemaindersDiffer(a: nat, d: nat)
    requires 0 < d < 0x1000000
    ensures (a + d) % 0x1000000 != a % 0x1000000
  {
  }

  /** Bytes a transfer apart are read from different places, whatever the registers hold. */
  lemma SpotsDiffer(mode: Connection, size: nat, lb: nat, ub: nat, lb': nat, ub': nat, logical: nat, d: nat)
    requires 0 < d <= DATA_SIZE && (mode.Parallel? ==> logical % 2 == 0 && d % 2 == 0)
    ensures InUpper(mode, size, logical) == InUpper(mode, size, logical + d) ==>
              Spot(mode, size, lb, ub, logical) != Spot(mode, size, lb', ub', logical + d)
  {
    var a, b := ChipAddress(mode, size, logical), ChipAddress(mode, size, logical + d);
    if InUpper(mode, size, logical) == InUpper(mode, size, logical + d) {
      var e := if mode.Parallel? then d / 2 else d;
      assert b == a + e;
      RemaindersDiffer(a, e);
    }
  }

  /** A chip of zeros with a one at `at`. */
  function OneAt(size: nat, at: nat): (chip: seq<Byte>)
    ensures |chip| == size && forall i | 0 <= i < size :: chip[i] == if i == at then 1 else 0
  {
    seq(size, i => if i == at then 1 else 0)
  }

  /** Two bytes a transfer apart differ on some chips. */
  lemma ChipsApart(mode: Connection, size: nat, lb: nat, ub: nat, x: nat, y: nat) returns (lower: seq<Byte>, upper: seq<Byte>)
    requires IsChipSize(size) && Registers(mode, size, lb, ub) && y < FlashSize(mode, size)
    requires 0 < y - x <= DATA_SIZE && (mode.Parallel? ==> x % 2 == 0 && y % 2 == 0)
    ensures IsFlash(mode, lower, upper) && |lower| == size
    ensures Observed(mode, lower, upper, lb, ub, y) != Observed(mode, lower, upper, lb, ub, x)
  {
    SpotsDiffer(mode, size, lb, ub, lb, ub, x, y - x);
    var inUpper, place := InUpper(mode, size, y), Spot(mode, size, lb, ub, y);
    lower := OneAt(size, if inUpper then size else place);
    upper := if mode.Single? then [] else OneAt(size, if inUpper then place else size);
    assert IsFlash(mode, lower, upper) && x < FlashSize(mode, size);
    hide *;
    ObservedAtSpot(mode, lower, upper, lb, ub, x);
    ObservedAtSpot(mode, lower, upper, lb, ub, y);
  }

  /** A first byte other than a given one. */
  lemma ChipsWithout(mode: Connection, size: nat, lb: nat, ub: nat, x: nat, b: Byte) returns (lower: seq<Byte>, upper: seq<Byte>)
    requires IsChipSize(size) && Registers(mode, size, lb, ub) && x < FlashSize(mode, size)
    ensures IsFlash(mode, lower, upper) && |lower| == size
    ensures Observed(mode, lower, upper, lb, ub, x) != b
  {
    var v: Byte := if b == 0 then 1 else 0;
    lower, upper := seq(size, _ => v), if mode.Single? then [] else seq(size, _ => v);
    hide Spot, Observed, InUpper;
    ObservedAtSpot(mode, lower, upper, lb, ub, x);
  }

  /** Chips on which the byte where a read first fails is not what the buffer holds there. */
  lemma ChipsThatShow(mode: Connection, size: nat, lb: nat, ub: nat, logical: nat, f: Miss, b: Byte)
    returns (lower: seq<Byte>, upper: seq<Byte>)
    requires IsChipSize(size) && Registers(mode, size, lb, ub) && logical + f.at < FlashSize(mode, size)
    requires f.at == 0 || 0 < f.at - f.before <= DATA_SIZE
    requires mode.Parallel? ==> logical % 2 == 0 && f.before % 2 == 0 && f.at % 2 == 0
    ensures IsFlash(mode, lower, upper) && |lower| == size
    ensures Observed(mode, lower, upper, lb, ub, logical + f.at) !=
            if f.at == 0 then b else Observed(mode, lower, upper, lb, ub, logical + f.before)
  {
    hide Observed;
    if f.at == 0 {
      lower, upper := ChipsWithout(mode, size, lb, ub, logical, b);
    } else {
      lower, upper := ChipsApart(mode, size, lb, ub, logical + f.before, logical + f.at);
    }
  }

  /** Chips that show the first failure of a read. */
  lemma FailureShows(mode: Connection, size: nat, lb: nat, ub: nat, logical: nat, n: nat,
      fails: nat -> bool, k: nat, buffer: seq<Byte>) returns (lower: seq<Byte>, upper: seq<Byte>)
    requires InRange(mode, size, logical, n) && Registers(mode, size, lb, ub) && |buffer| == DATA_SIZE
    requires !NoneFails(fails, k, k + |Schedule(mode, size, logical, n)|)
    ensures IsFlash(mode, lower, upper) && |lower| == size
    ensures var wanted := ObservedSlice(mode, lower, upper, lb, ub, logical, n);
            Received(wanted, Schedule(mode, size, logical, n), fails, k, buffer) != wanted
  {
    hide Schedule, Observed, NoneFails, FirstFailure, Total, Received, Fit, Chunk, IsChipSize, FlashSize;
    var chunks := Schedule(mode, size, logical, n);
    var f := FirstFailure(chunks, fails, k);
    FitMeans(mode, chunks);
    FirstFailureGap(mode, chunks, fails, k);
    if mode.Parallel? {
      FirstFailureEven(mode, chunks, fails, k);
    }
    RangeMeans(mode, size, logical, n, f.at);
    lower, upper := ChipsThatShow(mode, size, lb, ub, logical, f, buffer[0]);
    SliceAt(mode, lower, upper, lb, ub, logical, n, f.before);
    SliceAt(mode, lower, upper, lb, ub, logical, n, f.at);
    var wanted := ObservedSlice(mode, lower, upper, lb, ub, logical, n);
    StaleDiffers(wanted, chunks, fails, k, buffer, wanted);
  }

  lemma RangeMeans(mode: Connection, size: nat, logical: nat, n: nat, i: nat)
    requires InRange(mode, size, logical, n) && i < n
    ensures IsChipSize(size) && logical + i < FlashSize(mode, size) && (mode.Parallel? ==> logical % 2 == 0)
  {
  }

  lemma SliceAt(mode: Connection, lower: seq<Byte>, upper: seq<Byte>, lb: nat, ub: nat, from: nat, n: nat, i: nat)
    requires IsFlash(mode, lower, upper) && InRange(mode, |lower|, from, n) && Registers(mode, |lower|, lb, ub) && i < n
    ensures |ObservedSlice(mode, lower, upper, lb, ub, from, n)| == n
    ensures ObservedSlice(mode, lower, upper, lb, ub, from, n)[i] == Observed(mode, lower, upper, lb, ub, from + i)
  {
  }

  /** What is observed arrives, whatever the chips hold, exactly when none of the read's
      transfers fails. */
  lemma DeliveredExactlyWhen(mode: Connection, size: nat, lb: nat, ub: nat, logical: nat, n: nat,
      fails: nat -> bool, k: nat, buffer: seq<Byte>)
    requires InRange(mode, size, logical, n) && Registers(mode, size, lb, ub) && |buffer| == DATA_SIZE
    ensures var chunks := Schedule(mode, size, logical, n);
            (forall lower, upper | |lower| == size && IsFlash(mode, lower, upper) ::
               Arrives(mode, lower, upper, lb, ub, logical, n, fails, k, buffer)
               == ObservedSlice(mode, lower, upper, lb, ub, logical, n))
            <==> NoneFails(fails, k, k + |chunks|)
  {
    var chunks := Schedule(mode, size, logical, n);
    hide Schedule, Received, NoneFails, Total;
    if NoneFails(fails, k, k + |chunks|) {
      forall lower, upper | |lower| == size && IsFlash(mode, lower, upper)
        ensures Arrives(mode, lower, upper, lb, ub, logical, n, fails, k, buffer)
                == ObservedSlice(mode, lower, upper, lb, ub, logical, n)
      {
        ArrivesWhole(mode, lower, upper, lb, ub, logical, n, fails, k, buffer);
      }
    } else {
      var lower, upper := FailureShows(mode, size, lb, ub, logical, n, fails, k, buffer);
    }
  }

  /** A single transfer of what is left. */
  lemma LastTransfer(at: nat, n: nat)
    requires InRange(Single, 0x2000000, at, n) && n > 0 && NextLength(Single, 0x2000000, at, n) == n
    ensures Schedule(Single, 0x2000000, at, n) == [n]
  {
    hide NextLength;
    ScheduleStep(Single, 0x2000000, at, n);
    assert Schedule(Single, 0x2000000, at + n, 0) == [];
  }

  lemma SomeLengths()
    ensures NextLength(Single, 0x2000000, 0, 5000) == 4096 && NextLength(Single, 0x2000000, 4096, 904) == 904
    ensures NextLength(Single, 0x2000000, 0xFFFFF0, 5000) == 16
    ensures NextLength(Single, 0x2000000, 0x1000000, 4984) == 4096 && NextLength(Single, 0x2000000, 0x1001000, 888) == 888
  {
  }

  /** A read of 5000 bytes takes two transfers inside a bank, and a third where a bank of 16 MB
      ends. */
  lemma SomeSchedules()
    ensures Schedule(Single, 0x2000000, 0, 5000) == [4096, 904]
    ensures Schedule(Single, 0x2000000, 0xFFFFF0, 5000) == [16, 4096, 888]
  {
    SomeLengths();
    hide NextLength, Schedule;
    ScheduleStep(Single, 0x2000000, 0, 5000);
    LastTransfer(4096, 904);
    ScheduleStep(Single, 0x2000000, 0xFFFFF0, 5000);
    ScheduleStep(Single, 0x2000000, 0x1000000, 4984);
    LastTransfer(0x1001000, 888);
  }
}
