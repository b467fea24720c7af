/** How the loop of a banked QSPI read (LAB_2/hdf/qspi.c) comes closer to what arrives. */
module QspiProgress {
  import opened Bytes
  import opened QspiSpace
  import opened QspiTransfers

  /** The chips, and the bank registers with which a read began. */
  datatype Board = Board(mode: Connection, lower: seq<Byte>, upper: seq<Byte>, lb: nat, ub: nat) {
    ghost predicate Covers(logical: nat, n: nat) {
      IsFlash(mode, lower, upper) && Registers(mode, |lower|, lb, ub) && InRange(mode, |lower|, logical, n)
    }

    ghost function First(logical: nat, n: nat): (c: nat)
      requires Covers(logical, n) && n > 0
      ensures 0 < c <= n && c <= DATA_SIZE && Covers(logical, c) && Covers(logical + c, n - c)
    {
      NextLength(mode, |lower|, logical, n)
    }

    ghost function Wanted(logical: nat, n: nat): (bytes: seq<Byte>)
      requires Covers(logical, n)
      ensures |bytes| == n
    {
      ObservedSlice(mode, lower, upper, lb, ub, logical, n)
    }

    ghost function Count(logical: nat, n: nat): nat
      requires Covers(logical, n)
    {
      |Schedule(mode, |lower|, logical, n)|
    }

    ghost function Arrival(logical: nat, n: nat, fails: nat -> bool, k: nat, buffer: seq<Byte>): (r: seq<Byte>)
      requires Covers(logical, n) && |buffer| == DATA_SIZE
      ensures |r| == n
    {
      Arrives(mode, lower, upper, lb, ub, logical, n, fails, k, buffer)
    }

    /** The first transfer of a read, and the rest. */
    lemma Step(logical: nat, n: nat, fails: nat -> bool, k: nat, buffer: seq<Byte>)
      requires Covers(logical, n) && |buffer| == DATA_SIZE && n > 0
      ensures var c := First(logical, n);
              && Count(logical, n) == 1 + Count(logical + c, n - c)
              && var now := Landed(Wanted(logical, c), fails(k), buffer);
                 Arrival(logical, n, fails, k, buffer) == now[..c] + Arrival(logical + c, n - c, fails, k + 1, now)
    {
      hide Schedule, Total, Fit, Landed, Received, ObservedSlice, NextLength, BankOf, IsFlash, IsChipSize, FlashSize;
      var c := First(logical, n);
      var chunks := Schedule(mode, |lower|, logical, n);
      var wanted := ObservedSlice(mode, lower, upper, lb, ub, logical, n);
      ScheduleStep(mode, |lower|, logical, n);
      FitMeans(mode, chunks);
      SliceParts(mode, lower, upper, lb, ub, logical, n, c);
      ReceivedStep(wanted, chunks, fails, k, buffer);
      assert chunks[1..] == Schedule(mode, |lower|, logical + c, n - c);
    }
  }

  /** The board of two stacked chips when the upper one is left selected: it serves the lower
      half as well, and goes on into the upper half with the bank that the lower one ended in. */
  ghost function StuckBoard(upper: seq<Byte>, ub: nat, from: nat): Board {
    Board(Stacked, upper, upper, ub, if from < |upper| then HeldBank(ub, |upper| - 1) else ub)
  }

  /** What the chips' state is between reads: the bank registers, and whether the upper chip of
      two stacked ones was left selected. */
  datatype Chips = Chips(lb: nat, ub: nat, stuck: bool)

  /** What serves a read from a state. */
  ghost function BoardOf(mode: Connection, lower: seq<Byte>, upper: seq<Byte>, s: Chips, source: nat): (b: Board) {
    if s.stuck then StuckBoard(upper, s.ub, Source(mode, source)) else Board(mode, lower, upper, s.lb, s.ub)
  }

  /** The next transfer of a range has delivered `bytes` and left `after` in the buffer. */
  ghost predicate Brought(b: Board, logical: nat, n: nat, failed: bool, before: seq<Byte>, after: seq<Byte>, bytes: seq<Byte>) {
    && n > 0 && b.Covers(logical, n) && |before| == DATA_SIZE
    && var c := b.First(logical, n);
       after == Landed(b.Wanted(logical, c), failed, before) && bytes == after[..c]
  }

  /** `done` has been delivered; with the rest of the range, in transfers `k` to `end`, it
      makes up `all`. */
  ghost predicate Progress(b: Board, logical: nat, left: nat, all: seq<Byte>, end: nat, fails: nat -> bool,
                           done: seq<Byte>, k: nat, buffer: seq<Byte>) {
    && b.Covers(logical, left) && |buffer| == DATA_SIZE
    && k + b.Count(logical, left) == end
    && done + b.Arrival(logical, left, fails, k, buffer) == all
  }

  lemma ProgressStep(b: Board, logical: nat, left: nat, all: seq<Byte>, end: nat, fails: nat -> bool,
      done: seq<Byte>, k: nat, buffer: seq<Byte>, after: seq<Byte>, bytes: seq<Byte>)
    requires Progress(b, logical, left, all, end, fails, done, k, buffer)
    requires Brought(b, logical, left, fails(k), buffer, after, bytes)
    ensures |bytes| <= left
    ensures Progress(b, logical + |bytes|, left - |bytes|, all, end, fails, done + bytes, k + 1, after)
  {
    hide Board.Covers, Board.First, Board.Wanted, Board.Count, Board.Arrival, Landed;
    b.Step(logical, left, fails, k, buffer);
    var rest := b.Arrival(logical + |bytes|, left - |bytes|, fails, k + 1, after);
    assert done + (bytes + rest) == done + bytes + rest;
  }

  lemma ProgressEnds(b: Board, logical: nat, all: seq<Byte>, end: nat, fails: nat -> bool, done: seq<Byte>, k: nat, buffer: seq<Byte>)
    requires Progress(b, logical, 0, all, end, fails, done, k, buffer)
    ensures k == end && done == all
  {
  }
}
