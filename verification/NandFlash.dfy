/** The NAND read of LAB_2/hdf/nand.c, which skips bad blocks: an address counts only
    the good ones.  Block sizes are powers of two, so the code's masks are remainders. */
module NandFlash {
  import opened Bytes
  import opened Xstatus
  import opened Arithmetic

  /** The contents of the good blocks among the first `k`, one after the other. */
  function Good(size: nat, bad: seq<bool>, contents: seq<Byte>, k: nat): (g: seq<Byte>)
    requires k <= |bad| && |contents| == |bad| * size
  {
    if k == 0 then []
    else
      BlockInside(size, |bad|, k - 1);
      Good(size, bad, contents, k - 1) + if bad[k - 1] then [] else contents[(k - 1) * size..(k - 1) * size + size]
  }

  lemma BlockInside(size: nat, n: nat, b: nat)
    requires b < n
    ensures 0 <= b * size && b * size + size <= n * size
  {
    NextMultiple(n, b, size);
  }

  lemma {:induction false} GoodIsPrefix(size: nat, bad: seq<bool>, contents: seq<Byte>, k: nat, n: nat)
    requires k <= n <= |bad| && |contents| == |bad| * size
    ensures Good(size, bad, contents, k) <= Good(size, bad, contents, n)
    decreases n - k
  {
    if k < n {
      GoodIsPrefix(size, bad, contents, k, n - 1);
    }
  }

  /** Of three blocks of two bytes, the middle one bad, four bytes are good. */
  lemma SomeGoodBytes()
    ensures Good(2, [false, true, false], [1, 2, 3, 4, 5, 6], 3) == [1, 2, 5, 6]
  {
    var bad, contents: seq<Byte> := [false, true, false], [1, 2, 3, 4, 5, 6];
    assert Good(2, bad, contents, 1) == Good(2, bad, contents, 0) + contents[0..2] == [1, 2];
    assert Good(2, bad, contents, 2) == [1, 2];
    assert Good(2, bad, contents, 3) == [1, 2] + contents[4..6];
  }

  /** How a read ends: with a status, or asking for a block beyond the device's last. */
  datatype End = Ended(status: Status) | OffDevice

  class Nand {
    const blockSize: nat
    const bad: seq<bool>
    const contents: seq<Byte>
    const readFails: nat -> bool       // does the k-th page read fail?
    var readCount: nat

    ghost predicate Valid() {
      blockSize > 0 && |contents| == |bad| * blockSize
    }

    function DeviceSize(): nat {
      Start(|bad|)
    }

    /** Where block `k` begins. */
    function Start(k: nat): nat {
      k * blockSize
    }

    lemma StartStep(k: nat)
      ensures Start(k + 1) == Start(k) + blockSize
    {
    }

    lemma StartAdds(j: nat, k: nat)
      ensures Start(j + k) == Start(j) + Start(k)
    {
    }

    lemma GoodStep(k: nat)
      requires Valid() && k < |bad|
      ensures GoodBytes(k + 1) == GoodBytes(k) + if bad[k] then 0 else blockSize
    {
      BlockInside(blockSize, |bad|, k);
    }

    ghost function GoodBytes(k: nat): nat
      requires Valid() && k <= |bad|
    {
      |Good(blockSize, bad, contents, k)|
    }

    ghost function GoodSpace(): seq<Byte>
      requires Valid()
    {
      Good(blockSize, bad, contents, |bad|)
    }

    /** Physical offset `offset` is byte `o` of block `b`, and good address `address`:
        only a good block is ever entered. */
    ghost predicate At(offset: nat, b: nat, o: nat, address: nat)
      requires Valid()
    {
      && b <= |bad| && o < blockSize && offset == Start(b) + o
      && address == GoodBytes(b) + o
      && (o > 0 ==> b < |bad| && !bad[b])
    }

    ghost predicate ReadsWork(from: nat, to: nat) {
      forall k | from <= k < to :: !readFails(k)
    }

    /** More good bytes than lie before block `b`: there is a block `b`. */
    lemma MoreBlocks(b: nat, address: nat)
      requires Valid() && b <= |bad|
      requires GoodBytes(b) <= address < GoodBytes(|bad|)
      ensures b < |bad|
    {
    }

    lemma BlockOf(offset: nat, b: nat, o: nat)
      requires Valid() && o < blockSize && offset == Start(b) + o
      ensures offset / blockSize == b && offset % blockSize == o
    {
      DivisionIs(offset, blockSize, b, o);
    }

    lemma Before(b: nat, o: nat)
      requires Valid() && Start(b) + o < DeviceSize()
      ensures b < |bad| && Start(b + 1) <= DeviceSize()
    {
    }

    /** The block an offset lies in, and the bytes from there to the block's end. */
    method BlockAt(offset: nat, ghost b: nat, ghost o: nat) returns (block: nat, rest: nat)
      requires Valid() && o < blockSize && offset == Start(b) + o < DeviceSize()
      ensures block == b < |bad| && rest == blockSize - o
      ensures offset + rest == Start(b + 1) <= DeviceSize()
    {
      BlockOf(offset, b, o);
      Before(b, o);
      StartStep(b);
      block := offset / blockSize;
      rest := blockSize - offset % blockSize;
    }

    /** The length from `offset`, bad blocks included, to the end of the block in which
        the `length`-th good byte lies, or to the end of the device. */
    method CalculateLength(offset: nat, length: nat, ghost b: nat, ghost o: nat, ghost address: nat)
      returns (actual: nat, ghost last: nat)
      requires Valid() && At(offset, b, o, address) && (length > 0 ==> offset < DeviceSize())
      ensures length == 0 ==> actual == 0
      ensures length > 0 ==> offset + actual <= DeviceSize()
      ensures length > 0 ==>
                && b <= last < |bad| && offset + actual == Start(last + 1)
                && (last + 1 == |bad| || GoodBytes(last + 1) >= address + length)
                && (last > b ==> GoodBytes(last) < address + length)
    {
      hide Start, GoodBytes;
      actual, last := 0, b;
      var at, found: nat := offset, 0;
      ghost var next: nat := b;
      while found < length
        invariant at == offset + actual && b <= next <= |bad|
        invariant next == b ==> actual == 0 && found == 0 && last == b
        invariant length == 0 ==> next == b
        invariant next > b ==> last == next - 1 && at == Start(next) && found == GoodBytes(next) - address
        invariant last > b ==> GoodBytes(last) < address + length
        invariant length > 0 ==> at < DeviceSize()
        decreases DeviceSize() - at
      {
        var block, rest := BlockAt(at, next, if next == b then o else 0);
        GoodStep(next);
        if !bad[block] {
          found := found + rest;
        }
        actual := actual + rest;
        at := at + rest;
        last, next := next, next + 1;
        if at >= DeviceSize() {
          WholeDevice(next);
          break;
        }
      }
      assert length > 0 ==> next > b;
    }

    lemma WholeDevice(k: nat)
      requires Valid() && k <= |bad| && Start(k) >= DeviceSize()
      ensures k == |bad|
    {
    }

    /** Bad blocks among the first `k`. */
    ghost function BadAmong(k: nat): nat
      requires k <= |bad|
    {
      if k == 0 then 0 else BadAmong(k - 1) + if bad[k - 1] then 1 else 0
    }

    /** `k` blocks are the fewest that hold `source` good bytes. */
    ghost predicate Fewest(k: nat, source: nat)
      requires Valid()
    {
      k <= |bad| && GoodBytes(k) >= source && (k > 0 ==> GoodBytes(k - 1) < source)
    }

    /** The inner loop: bad blocks from `from` on are counted. */
    method SkipBad(from: nat, counted: nat, ghost source: nat) returns (blockCount: nat, badBlocks: nat)
      requires Valid() && from <= |bad| && counted == BadAmong(from)
      requires GoodBytes(from) < source <= GoodBytes(|bad|)
      ensures from <= blockCount < |bad| && !bad[blockCount]
      ensures blockCount - from == badBlocks - counted && badBlocks == BadAmong(blockCount)
      ensures GoodBytes(blockCount) == GoodBytes(from)
    {
      hide Start, GoodBytes;
      blockCount, badBlocks := from, counted;
      MoreBlocks(blockCount, source - 1);
      while bad[blockCount]
        invariant from <= blockCount < |bad| && blockCount - from == badBlocks - counted
        invariant GoodBytes(blockCount) == GoodBytes(from) && badBlocks == BadAmong(blockCount)
        decreases |bad| - blockCount
      {
        GoodStep(blockCount);
        blockCount := blockCount + 1;
        badBlocks := badBlocks + 1;
        MoreBlocks(blockCount, source - 1);
      }
    }

    /** Counts the bad blocks before a good address: those among the fewest blocks that
        hold that many good bytes. */
    method BadBlocksBefore(source: nat) returns (badBlocks: nat, ghost b: nat, ghost o: nat)
      requires Valid() && source <= GoodBytes(|bad|)
      ensures exists k :: Fewest(k, source) && badBlocks == BadAmong(k)
      ensures At(source + Start(badBlocks), b, o, source)
    {
      var address, blockCount: nat := 0, 0;
      badBlocks := 0;
      ghost var good: nat := 0;
      assert Start(0) == 0 && GoodBytes(0) == 0 && BadAmong(0) == 0;
      hide Start, GoodBytes, BadAmong;
      while address < source
        invariant blockCount <= |bad| && blockCount == good + badBlocks && badBlocks == BadAmong(blockCount)
        invariant address == Start(good) == GoodBytes(blockCount)
        invariant blockCount > 0 ==>
                    && good > 0 && address >= blockSize && !bad[blockCount - 1]
                    && GoodBytes(blockCount - 1) == address - blockSize < source
        decreases |bad| - blockCount
      {
        blockCount, badBlocks := SkipBad(blockCount, badBlocks, source);
        GoodStep(blockCount);
        BadStep(blockCount);
        StartStep(good);
        address := address + blockSize;
        blockCount := blockCount + 1;
        good := good + 1;
      }
      StartAdds(good, badBlocks);
      assert Fewest(blockCount, source);
      if source == address {
        b, o := blockCount, 0;
      } else {
        b, o := blockCount - 1, source + blockSize - address;
        StartStep(b);
      }
    }

    lemma BadStep(k: nat)
      requires k < |bad|
      ensures BadAmong(k + 1) == BadAmong(k) + if bad[k] then 1 else 0
    {
    }

    /** A good block's bytes are the good space's bytes. */
    lemma GoodSlice(b: nat, o: nat, n: nat)
      requires Valid() && b < |bad| && !bad[b] && o + n <= blockSize
      ensures Start(b) + o + n <= |contents| && GoodBytes(b) + o + n <= GoodBytes(|bad|)
      ensures contents[Start(b) + o..Start(b) + o + n] ==
              GoodSpace()[GoodBytes(b) + o..GoodBytes(b) + o + n]
    {
      BlockInside(blockSize, |bad|, b);
      var before, upTo := Good(blockSize, bad, contents, b), Good(blockSize, bad, contents, b + 1);
      GoodIsPrefix(blockSize, bad, contents, b + 1, |bad|);
      SliceThrough(contents, Start(b), blockSize, before, GoodSpace(), o, n);
    }

    lemma SliceThrough(s: seq<Byte>, from: nat, size: nat, before: seq<Byte>, all: seq<Byte>, o: nat, n: nat)
      requires from + size <= |s| && o + n <= size
      requires before + s[from..from + size] <= all
      ensures s[from + o..from + o + n] == all[|before| + o..|before| + o + n]
    {
      var upTo := before + s[from..from + size];
      assert all[..|upTo|] == upTo;
      var x, y := s[from + o..from + o + n], all[|before| + o..|before| + o + n];
      forall i | 0 <= i < n
        ensures x[i] == y[i]
      {
        assert upTo[|before| + (o + i)] == s[from + (o + i)];
      }
    }

    /** XNandPs_Read: copies bytes of one block out, or fails. */
    method ReadPage(offset: nat, n: nat, dst: array<Byte>, at: nat) returns (status: Status)
      requires Valid() && offset + n <= |contents| && at + n <= dst.Length
      modifies this`readCount, dst
      ensures readCount == old(readCount) + 1
      ensures status.Success? <==> !readFails(old(readCount))
      ensures status.Success? ==> dst[at..at + n] == contents[offset..offset + n]
      ensures status.Failure? ==> dst[at..at + n] == old(dst[at..at + n])
      ensures dst[..at] == old(dst[..at]) && dst[at + n..] == old(dst[at + n..])
    {
      status := if readFails(readCount) then Failure else Success;
      readCount := readCount + 1;
      if status.Success? {
        forall i | 0 <= i < n {
          dst[at + i] := contents[offset + i];
        }
      }
    }

    lemma Splice(dst: seq<Byte>, all: seq<Byte>, source: nat, done: nat, n: nat)
      requires done + n <= |dst| && source + done + n <= |all|
      requires dst[..done] == all[source..source + done]
      requires dst[done..done + n] == all[source + done..source + done + n]
      ensures dst[..done + n] == all[source..source + (done + n)]
    {
    }

    /** What a read has done: if no page read failed, it has delivered the good bytes asked for,
        or all that are left and then run off the device. */
    ghost predicate Delivered(source: nat, length: nat, first: nat, last: nat, bytes: seq<Byte>, end: End)
      requires Valid()
    {
      && first <= last && |bytes| >= length && source <= |GoodSpace()|
      && (end == Ended(Failure) <==> !ReadsWork(first, last))
      && (end == Ended(Success) ==>
            source + length <= |GoodSpace()| && bytes[..length] == GoodSpace()[source..source + length])
      && (end == OffDevice ==>
            |GoodSpace()| < source + length && bytes[..|GoodSpace()| - source] == GoodSpace()[source..])
    }

    /** At the head of the loop: `done` good bytes copied, no read failed since the first, and
        memory past the range as it was. */
    ghost predicate Copying(source: nat, length: nat, first: nat, offset: nat, b: nat, o: nat, done: nat,
                            bytes: seq<Byte>, beyond: seq<Byte>)
      requires Valid()
      reads this`readCount
    {
      && done <= length <= |bytes| && At(offset, b, o, source + done)
      && first <= readCount && ReadsWork(first, readCount)
      && source + done <= |GoodSpace()| && bytes[..done] == GoodSpace()[source..source + done]
      && bytes[length..] == beyond
    }

    /** One turn of the loop: a bad block is stepped over, a good one read to its end or to the
        last byte wanted. */
    method Turn(offset: nat, left: nat, dst: array<Byte>, done: nat, ghost b: nat, ghost o: nat,
                ghost source: nat, ghost first: nat, ghost beyond: seq<Byte>)
      returns (next: nat, n: nat, status: Status, ghost b': nat, ghost o': nat)
      requires Valid() && 0 < left && done + left <= dst.Length && offset < DeviceSize()
      requires Copying(source, done + left, first, offset, b, o, done, dst[..], beyond)
      modifies this`readCount, dst
      ensures n <= left
      ensures status.Success? ==>
                && Copying(source, done + left, first, next, b', o', done + n, dst[..], beyond)
                && b <= b' <= |bad| && (n == 0 ==> b < b')
      ensures status.Failure? ==>
                first <= readCount && !ReadsWork(first, readCount) && dst[done + left..] == beyond
    {
      assert |GoodSpace()| == GoodBytes(|bad|);
      hide Start, GoodBytes, Good;
      Before(b, o);
      var block, rest := BlockAt(offset, b, o);
      if bad[block] {
        GoodStep(b);
        next, n, status, b', o' := offset + rest, 0, Success, b + 1, 0;
      } else {
        n := if left < rest then left else rest;
        next := offset + n;
        b', o', status := CopyChunk(offset, n, rest, dst, done, b, o, source);
      }
    }

    /** The loop. */
    method CopyGood(start: nat, dst: array<Byte>, length: nat, ghost b0: nat, ghost o0: nat, ghost source: nat)
      returns (end: End)
      requires Valid() && At(start, b0, o0, source)
      requires source <= GoodBytes(|bad|) && length <= dst.Length
      modifies this`readCount, dst
      ensures Delivered(source, length, old(readCount), readCount, dst[..], end)
      ensures dst[length..] == old(dst[length..])
    {
      hide Start, GoodBytes, Good, At;
      GoodSize();
      var offset: nat, left: nat, done: nat := start, length, 0;
      ghost var b: nat, o: nat, first, beyond := b0, o0, readCount, dst[length..];
      while left > 0
        invariant done + left == length
        invariant Copying(source, length, first, offset, b, o, done, dst[..], beyond)
        decreases |bad| - b, left
      {
        if offset >= DeviceSize() {
          AtTheEnd(offset, b, o, source + done);
          return OffDevice;
        }
        var n, status;
        offset, n, status, b, o := Turn(offset, left, dst, done, b, o, source, first, beyond);
        if status.Failure? {
          return Ended(Failure);
        }
        left, done := left - n, done + n;
      }
      return Ended(Success);
    }

    lemma GoodSize()
      requires Valid()
      ensures |GoodSpace()| == GoodBytes(|bad|)
    {
    }

    lemma AtTheEnd(offset: nat, b: nat, o: nat, address: nat)
      requires Valid() && At(offset, b, o, address) && offset >= DeviceSize()
      ensures address == |GoodSpace()|
    {
      hide Start, Good;
      OffTheEnd(b, o);
    }

    lemma OffTheEnd(b: nat, o: nat)
      requires Valid() && b <= |bad| && o < blockSize && (o > 0 ==> b < |bad|) && Start(b) + o >= DeviceSize()
      ensures b == |bad| && o == 0
    {
      if b < |bad| {
        InDevice(b, o);
      }
    }

    /** A read inside one good block, up to its end or to the last byte wanted. */
    method CopyChunk(offset: nat, n: nat, rest: nat, dst: array<Byte>, done: nat, ghost b: nat, ghost o: nat, ghost source: nat)
      returns (ghost b': nat, ghost o': nat, status: Status)
      requires Valid() && b < |bad| && !bad[b] && At(offset, b, o, source + done)
      requires rest == blockSize - o && 0 < n <= rest && done + n <= dst.Length
      requires source + done <= |GoodSpace()| && dst[..done] == GoodSpace()[source..source + done]
      modifies this`readCount, dst
      ensures readCount == old(readCount) + 1
      ensures status.Success? <==> !readFails(old(readCount))
      ensures status.Success? ==>
                && source + done + n <= |GoodSpace()|
                && dst[..done + n] == GoodSpace()[source..source + (done + n)]
                && At(offset + n, b', o', source + (done + n))
                && b <= b'
      ensures dst[done + n..] == old(dst[done + n..])
    {
      GoodSlice(b, o, n);
      GoodStep(b);
      StartStep(b);
      assert |GoodSpace()| == GoodBytes(|bad|);
      hide Start, GoodBytes, Good;
      status := ReadPage(offset, n, dst, done);
      if status.Success? {
        Splice(dst[..], GoodSpace(), source, done, n);
      }
      if n == rest {
        b', o' := b + 1, 0;
      } else {
        b', o' := b, o + n;
      }
    }

    lemma InDevice(b: nat, o: nat)
      requires Valid() && b < |bad| && o < blockSize
      ensures Start(b) + o < DeviceSize()
    {
      NextMultiple(|bad|, b, blockSize);
    }

    /** For every map of bad blocks: a read that starts within the good space never meets the
        size guard.  When no page read fails it delivers the good bytes asked for, or, if there
        are too few, those that are left, and runs off the device. */
    method NandAccess(source: nat, dst: array<Byte>, length: nat) returns (end: End)
      requires Valid() && source <= |GoodSpace()| && length <= dst.Length
      requires length > 0 ==> source < |GoodSpace()|
      modifies this`readCount, dst
      ensures Delivered(source, length, old(readCount), readCount, dst[..], end)
      ensures ReadsWork(old(readCount), readCount) ==>
                end == if source + length <= |GoodSpace()| then Ended(Success) else OffDevice
      ensures dst[length..] == old(dst[length..])
    {
      hide Delivered, ReadsWork, Fewest, BadAmong, Good;
      var badBlocks;
      ghost var b, o;
      badBlocks, b, o := BadBlocksBefore(source);
      var offset := source + badBlocks * blockSize;
      if length > 0 {
        MoreBlocks(b, source);
        InDevice(b, o);
      } else {
        AtMostDevice(b, o);
      }
      var actual;
      ghost var last;
      actual, last := CalculateLength(offset, length, b, o, source);
      if offset + actual > DeviceSize() {
        assert false;
        return Ended(Failure);
      }
      end := CopyGood(offset, dst, length, b, o, source);
      EndIs(source, length, old(readCount), readCount, dst[..], end);
    }

    lemma EndIs(source: nat, length: nat, first: nat, last: nat, bytes: seq<Byte>, end: End)
      requires Valid() && Delivered(source, length, first, last, bytes, end)
      ensures ReadsWork(first, last) ==>
                end == if source + length <= |GoodSpace()| then Ended(Success) else OffDevice
    {
      hide Good, ReadsWork;
      match end
      case OffDevice =>
      case Ended(Success) =>
      case Ended(Failure) =>
    }

    lemma AtMostDevice(b: nat, o: nat)
      requires Valid() && b <= |bad| && o < blockSize && (o > 0 ==> b < |bad|)
      ensures Start(b) + o <= DeviceSize()
    {
      if b < |bad| {
        NextMultiple(|bad|, b, blockSize);
      }
    }
  }
}
