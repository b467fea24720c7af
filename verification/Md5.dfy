/** The incremental hash of LAB_2/hdf/md5.c: a partial-block buffer, a two-word bit
    counter and two-case padding, proved to compute RFC 1321's digest. */
module Md5 {
  import opened Arithmetic
  import opened Bytes
  import Md5Rfc
  import opened Md5Steps

  /** The two words of `bits` for a message of `n` bytes: 8 * n modulo 2^64. */
  predicate Counts(low: Word, high: Word, n: nat) {
    && low as nat == 8 * n % 0x1_0000_0000
    && high as nat == 8 * n / 0x1_0000_0000 % 0x1_0000_0000
  }

  /** Bytes that wait in the partial block. */
  function Pending(n: nat): nat {
    n % 64
  }

  function Whole(m: seq<Byte>): (w: seq<Byte>)
    ensures |w| == |m| - Pending(|m|) && |w| % 64 == 0
  {
    m[..|m| - |m| % 64]
  }

  function Tail(m: seq<Byte>): (t: seq<Byte>)
    ensures |t| == Pending(|m|) && Whole(m) + t == m
  {
    m[|m| - |m| % 64..]
  }

  lemma SliceOfSlice(s: seq<Byte>, a: nat, b: nat, i: nat, j: nat)
    requires a <= b <= |s| && i <= j <= b - a
    ensures s[a..b][i..j] == s[a + i..a + j]
  {
    var t := s[a..b];
    forall k | 0 <= k < j - i
      ensures t[i..j][k] == s[a + i..a + j][k]
    {
      assert t[i + k] == s[a + (i + k)];
    }
  }

  lemma WholeAndTail(m: seq<Byte>, w: seq<Byte>, t: seq<Byte>)
    requires m == w + t && |w| % 64 == 0 && |t| < 64
    ensures Whole(m) == w && Tail(m) == t && Pending(|m|) == |t|
  {
  }

  /** The counter as the code advances it: the low word wraps, a wrap is seen because
      the sum got smaller, and the bits shifted out of `len << 3` are added on top. */
  function LowAfter(low: Word, len: Word): Word {
    Plus(low, (len as int * 8 % 0x1_0000_0000) as Word)
  }

  function HighAfter(low: Word, high: Word, len: Word): Word {
    var carried := if LowAfter(low, len) < low then Plus(high, 1) else high;
    Plus(carried, (len as int / 0x2000_0000) as Word)
  }

  lemma SplitSum(n: nat, k: nat)
    ensures (n + k) % 0x1_0000_0000 == (n % 0x1_0000_0000 + k % 0x1_0000_0000) % 0x1_0000_0000
    ensures (n + k) / 0x1_0000_0000 ==
            n / 0x1_0000_0000 + k / 0x1_0000_0000 +
            if n % 0x1_0000_0000 + k % 0x1_0000_0000 >= 0x1_0000_0000 then 1 else 0
  {
  }

  lemma LowAdvances(low: Word, n: nat, len: Word)
    requires low as nat == 8 * n % 0x1_0000_0000
    ensures LowAfter(low, len) as nat == 8 * (n + len as nat) % 0x1_0000_0000
    ensures LowAfter(low, len) < low <==>
            8 * n % 0x1_0000_0000 + 8 * len as nat % 0x1_0000_0000 >= 0x1_0000_0000
  {
  }

  lemma PlusValue(x: Word, y: Word, a: nat, b: nat)
    requires x as nat == a % 0x1_0000_0000 && y as nat == b
    ensures Plus(x, y) as nat == (a + b) % 0x1_0000_0000
  {
  }

  /** The hand-written carry counts 8 bits a byte modulo 2^64. */
  lemma CounterAdvances(low: Word, high: Word, n: nat, len: Word)
    requires Counts(low, high, n)
    ensures Counts(LowAfter(low, len), HighAfter(low, high, len), n + len as nat)
  {
    var k := len as nat;
    LowAdvances(low, n, len);
    SplitSum(8 * n, 8 * k);
    assert 8 * (n + k) == 8 * n + 8 * k;
    var q: nat := k / 0x2000_0000;
    assert 8 * k / 0x1_0000_0000 == q;
    var h: nat := 8 * n / 0x1_0000_0000;
    var carry: nat := if LowAfter(low, len) < low then 1 else 0;
    hide Plus, LowAfter;
    PlusValue(high, 1, h, 1);
    var carried := if carry == 1 then Plus(high, 1) else high;
    PlusValue(carried, (len as int / 0x2000_0000) as Word, h + carry, q);
  }

  /** The low word over 8 is the byte count modulo 2^29, so its last six bits are the count's. */
  lemma PendingFromCounter(low: Word, high: Word, n: nat)
    requires Counts(low, high, n)
    ensures low as nat / 8 % 64 == Pending(n)
  {
    var q, r := n / 0x2000_0000, n % 0x2000_0000;
    DivisionIs(8 * n, 0x1_0000_0000, q, 8 * r);
    var s, t := r / 64, r % 64;
    DivisionIs(n, 64, 0x80_0000 * q + s, t);
    DivisionIs(low as nat, 8, r, 0);
  }

  lemma AbsorbBlock(m: seq<Byte>, block: seq<Byte>)
    requires |m| % 64 == 0 && |block| == 64
    ensures Md5Rfc.Absorb(m + block) == Md5Rfc.Block(Md5Rfc.Absorb(m), Md5Rfc.Words(block))
  {
  }

  method MD5Memcpy(dst: array<Byte>, at: nat, src: array<Byte>, from: nat, count: nat)
    requires dst != src && at + count <= dst.Length && from + count <= src.Length
    modifies dst
    ensures dst[at..at + count] == src[from..from + count]
    ensures dst[..at] == old(dst[..at]) && dst[at + count..] == old(dst[at + count..])
  {
    var k := 0;
    while k < count
      invariant 0 <= k <= count
      invariant dst[at..at + k] == src[from..from + k]
      invariant dst[..at] == old(dst[..at]) && dst[at + count..] == old(dst[at + count..])
    {
      dst[at + k] := src[from + k];
      assert dst[at..at + k + 1] == dst[at..at + k] + [src[from + k]];
      k := k + 1;
    }
  }

  method MD5Memset(dst: array<Byte>, at: nat, value: Byte, count: nat)
    requires at + count <= dst.Length
    modifies dst
    ensures forall i | at <= i < at + count :: dst[i] == value
    ensures dst[..at] == old(dst[..at]) && dst[at + count..] == old(dst[at + count..])
  {
    var k := 0;
    while k < count
      invariant 0 <= k <= count
      invariant forall i | at <= i < at + k :: dst[i] == value
      invariant dst[..at] == old(dst[..at]) && dst[at + count..] == old(dst[at + count..])
    {
      dst[at + k] := value;
      k := k + 1;
    }
  }

  class MD5Context {
    const buffer: array<Word>
    var low: Word
    var high: Word
    const intermediate: array<Byte>
    ghost var message: seq<Byte>        // all bytes taken in so far

    ghost predicate Shape() {
      buffer.Length == 4 && intermediate.Length == 64
    }

    /** The state for message `m`, apart from the counter. */
    ghost predicate Holds(m: seq<Byte>)
      requires Shape()
      reads buffer, intermediate
    {
      && Buffer(buffer) == Md5Rfc.Absorb(Whole(m))
      && intermediate[..Pending(|m|)] == Tail(m)
    }

    ghost predicate Valid()
      reads this, buffer, intermediate
    {
      && Shape()
      && Counts(low, high, |message|)
      && Holds(message)
    }

    /** Constructor and MD5Init. */
    constructor ()
      ensures Valid() && message == []
      ensures fresh(buffer) && fresh(intermediate)
    {
      buffer := new Word[4];
      intermediate := new Byte[64];
      low, high, message := 0, 0, [];
      new;
      buffer[0] := 0x67452301;
      buffer[1] := 0xefcdab89;
      buffer[2] := 0x98badcfe;
      buffer[3] := 0x10325476;
    }

    /** The counter part of MD5Update. */
    method Count(len: Word)
      requires Counts(low, high, |message|)
      modifies this`low, this`high
      ensures Counts(low, high, |message| + len as nat)
    {
      CounterAdvances(low, high, |message|, len);
      var temp := low;
      low := Plus(temp, (len as int * 8 % 0x1_0000_0000) as Word);
      if low < temp {
        high := Plus(high, 1);
      }
      high := Plus(high, (len as int / 0x2000_0000) as Word);
    }

    /** The full block is transformed into the chaining words. */
    method Transform(ghost whole: seq<Byte>, ghost block: seq<Byte>)
      requires Shape() && intermediate[..] == block
      requires |whole| % 64 == 0 && Buffer(buffer) == Md5Rfc.Absorb(whole)
      modifies buffer
      ensures Buffer(buffer) == Md5Rfc.Absorb(whole + block)
    {
      AbsorbBlock(whole, block);
      hide Md5Rfc.Absorb, Md5Rfc.Block, Buffer, Md5Rfc.Words;
      MD5Transform(buffer, intermediate);
    }

    /** Fills the block from `at` with input bytes and transforms it. */
    method TakeBlock(input: array<Byte>, from: nat, at: nat, ghost whole: seq<Byte>, ghost m: seq<Byte>)
      requires Shape() && input != intermediate && at <= 64 && from + (64 - at) <= input.Length
      requires |whole| % 64 == 0 && Buffer(buffer) == Md5Rfc.Absorb(whole)
      requires m == whole + intermediate[..at] + input[from..from + (64 - at)]
      modifies buffer, intermediate
      ensures Buffer(buffer) == Md5Rfc.Absorb(m)
    {
      MD5Memcpy(intermediate, at, input, from, 64 - at);
      ghost var block := old(intermediate[..at]) + old(input[from..from + (64 - at)]);
      assert intermediate[..] == block;
      assert whole + block == m;
      hide Md5Rfc.Absorb, Buffer;
      Transform(whole, block);
    }

    /** Whole blocks straight from the input, then the rest into the partial block. */
    method TakeRest(input: array<Byte>, from: nat, len: nat, ghost whole: seq<Byte>, ghost data: seq<Byte>)
      requires Shape() && input != intermediate && from <= len <= input.Length && input[from..len] == data
      requires |whole| % 64 == 0 && Buffer(buffer) == Md5Rfc.Absorb(whole)
      modifies buffer, intermediate
      ensures Holds(whole + data)
    {
      hide Md5Rfc.Absorb, Whole, Tail, Buffer, Pending;
      ghost var m := whole;
      var done: nat, left: nat := 0, len - from;
      while left >= 64
        invariant done + left == |data| && done % 64 == 0
        invariant input[..] == old(input[..]) && data == input[..][from..len] && m == whole + data[..done]
        invariant Buffer(buffer) == Md5Rfc.Absorb(m)
      {
        ghost var next := whole + data[..done + 64];
        SliceOfSlice(input[..], from, len, done, done + 64);
        assert next == m + intermediate[..0] + data[done..done + 64];
        TakeBlock(input, from + done, 0, m, next);
        done, left, m := done + 64, left - 64, next;
      }
      MD5Memcpy(intermediate, 0, input, from + done, left);
      WholeAndTail(whole + data, m, data[done..]);
    }

    /** Too few bytes to fill the partial block. */
    method StoreShort(input: array<Byte>, temp: nat, len: nat, ghost was: seq<Byte>, ghost data: seq<Byte>)
      requires Shape() && input != intermediate && len <= input.Length && input[0..len] == data
      requires temp == Pending(|was|) && temp + len < 64 && Holds(was)
      modifies intermediate
      ensures Holds(was + data)
    {
      hide Md5Rfc.Absorb, Buffer;
      MD5Memcpy(intermediate, temp, input, 0, len);
      WholeAndTail(was + data, Whole(was), Tail(was) + data);
    }

    /** Completes a partial block. */
    method FillBlock(input: array<Byte>, temp: nat, ghost was: seq<Byte>, ghost data: seq<Byte>)
      returns (ghost m: seq<Byte>)
      requires Shape() && input != intermediate && 64 - temp <= |data| <= input.Length && input[..|data|] == data
      requires temp == Pending(|was|) && temp > 0 && Holds(was)
      modifies buffer, intermediate
      ensures |m| % 64 == 0 && Buffer(buffer) == Md5Rfc.Absorb(m)
      ensures m + data[64 - temp..] == was + data
    {
      hide Md5Rfc.Absorb, Buffer, Whole, Tail;
      m := was + data[..64 - temp];
      assert data[..64 - temp] == input[0..0 + (64 - temp)];
      assert m == Whole(was) + intermediate[..temp] + input[0..0 + (64 - temp)];
      TakeBlock(input, 0, temp, Whole(was), m);
    }

    /** The data part of MD5Update: a short piece, a filled block, whole blocks, the rest. */
    method TakeAll(input: array<Byte>, temp: nat, len: nat, ghost was: seq<Byte>, ghost data: seq<Byte>)
      requires Shape() && input != intermediate && len <= input.Length && input[..len] == data
      requires temp == Pending(|was|) && Holds(was)
      modifies buffer, intermediate
      ensures Holds(was + data)
    {
      NothingPending(was);
      assert input[0..len] == data;
      hide Holds, Pending;
      if temp != 0 && len < 64 - temp {
        StoreShort(input, temp, len, was, data);
      } else if temp != 0 {
        ghost var m := FillBlock(input, temp, was, data);
        TakeRest(input, 64 - temp, len, m, data[64 - temp..]);
      } else {
        TakeRest(input, 0, len, was, data);
      }
    }

    lemma NothingPending(m: seq<Byte>)
      requires Shape() && Holds(m)
      ensures Pending(|m|) < 64
      ensures Pending(|m|) == 0 ==> |m| % 64 == 0 && Buffer(buffer) == Md5Rfc.Absorb(m)
    {
      if Pending(|m|) == 0 {
        assert Whole(m) == m;
      }
    }

    /** Takes in more bytes: however the message was cut, the state is a function of it. */
    method MD5Update(input: array<Byte>, len: Word)
      requires Valid() && input != intermediate && len as nat <= input.Length
      modifies this, buffer, intermediate
      ensures Valid() && message == old(message) + input[..len]
    {
      var temp := low as nat / 8 % 64;
      PendingFromCounter(low, high, |message|);
      ghost var was, data := message, input[..len];
      Count(len);
      message := was + data;
      TakeAll(input, temp, len as nat, was, data);
    }

    /** The start of the padding: 0x80 after the pending bytes, zeros up to `upTo`. */
    method PadTo(count: nat, upTo: nat)
      requires Shape() && count < upTo <= 64
      modifies intermediate
      ensures intermediate[..upTo] == old(intermediate[..count]) + [0x80] + Md5Rfc.Zeros(upTo - count - 1)
    {
      intermediate[count] := 0x80;
      ghost var head := intermediate[..count + 1];
      MD5Memset(intermediate, count + 1, 0, upTo - count - 1);
      assert intermediate[..upTo] == intermediate[..count + 1] + intermediate[count + 1..upTo];
      assert intermediate[count + 1..upTo] == Md5Rfc.Zeros(upTo - count - 1);
    }

    method StoreWord(at: nat, w: Word)
      requires Shape() && at + 4 <= 64
      modifies intermediate
      ensures intermediate[at..at + 4] == WordBytes(w)
      ensures intermediate[..at] == old(intermediate[..at]) && intermediate[at + 4..] == old(intermediate[at + 4..])
    {
      ghost var bytes := WordBytes(w);
      hide WordBytes;
      var b := WordBytes(w);
      intermediate[at] := b[0];
      intermediate[at + 1] := b[1];
      intermediate[at + 2] := b[2];
      intermediate[at + 3] := b[3];
      assert intermediate[at..at + 4] == [b[0], b[1], b[2], b[3]] == b;
    }

    /** The two counter words at the end of the block, and the last transform. */
    method FinishBlock(ghost m: seq<Byte>, ghost whole: seq<Byte>)
      requires Shape() && |whole| % 64 == 0 && Buffer(buffer) == Md5Rfc.Absorb(whole)
      requires Counts(low, high, |m|)
      modifies buffer, intermediate
      ensures Buffer(buffer) == Md5Rfc.Absorb(whole + (old(intermediate[..56]) + Md5Rfc.LengthBytes(|m|)))
    {
      ghost var head := intermediate[..56];
      assert Md5Rfc.LengthBytes(|m|) == WordBytes(low) + WordBytes(high);
      hide WordBytes, Md5Rfc.LengthBytes, Counts;
      StoreWord(56, low);
      StoreWord(60, high);
      ghost var block := head + (WordBytes(low) + WordBytes(high));
      assert intermediate[56..60] == intermediate[..60][56..];
      assert intermediate[..] == intermediate[..56] + intermediate[56..60] + intermediate[60..64];
      assert intermediate[..] == block;
      hide Md5Rfc.Absorb, Buffer;
      Transform(whole, block);
    }

    /** The digest: the four words, low-order bytes first. */
    method CopyOut(digest: array<Byte>)
      requires Shape() && digest.Length >= 16 && digest != intermediate
      modifies digest
      ensures digest[..16] == Md5Rfc.Digest(Buffer(buffer))
      ensures digest[16..] == old(digest[16..])
    {
      ghost var bytes := Md5Rfc.Digest(Buffer(buffer));
      hide WordBytes;
      var i := 0;
      while i < 4
        invariant 0 <= i <= 4
        invariant digest[..4 * i] == bytes[..4 * i]
        invariant digest[16..] == old(digest[16..])
      {
        var b := WordBytes(buffer[i]);
        assert b == bytes[4 * i..4 * i + 4];
        digest[4 * i] := b[0];
        digest[4 * i + 1] := b[1];
        digest[4 * i + 2] := b[2];
        digest[4 * i + 3] := b[3];
        assert digest[..4 * i + 4] == digest[..4 * i] + [b[0], b[1], b[2], b[3]];
        assert bytes[..4 * i + 4] == bytes[..4 * i] + b;
        i := i + 1;
      }
    }

    /** Too little room for the length: the padding takes a block of its own. */
    method PadTwice(count: nat)
      requires Shape() && Holds(message) && Counts(low, high, |message|)
      requires count == Pending(|message|) && count >= 56
      modifies buffer, intermediate
      ensures Buffer(buffer) == Md5Rfc.Absorb(Md5Rfc.Padded(message))
    {
      PaddedTwice(message);
      hide Md5Rfc.Absorb, Buffer, Whole, Tail, Counts, Md5Rfc.LengthBytes, Md5Rfc.Padded, Pending;
      ghost var done := PadFirst(count, Whole(message), Tail(message));
      FinishBlock(message, done);
    }

    /** The first of two padding blocks, filled up with zeros and transformed. */
    method PadFirst(count: nat, ghost whole: seq<Byte>, ghost tail: seq<Byte>) returns (ghost done: seq<Byte>)
      requires Shape() && count < 64 && intermediate[..count] == tail
      requires |whole| % 64 == 0 && Buffer(buffer) == Md5Rfc.Absorb(whole)
      modifies buffer, intermediate
      ensures done == whole + (tail + [0x80] + Md5Rfc.Zeros(63 - count)) && |done| % 64 == 0
      ensures Buffer(buffer) == Md5Rfc.Absorb(done)
      ensures intermediate[..56] == Md5Rfc.Zeros(56)
    {
      hide Md5Rfc.Absorb, Buffer;
      PadTo(count, 64);
      ghost var first := tail + [0x80] + Md5Rfc.Zeros(63 - count);
      assert intermediate[..] == intermediate[..64];
      Transform(whole, first);
      done := whole + first;
      MD5Memset(intermediate, 0, 0, 56);
    }

    method PadOnce(count: nat)
      requires Shape() && Holds(message) && Counts(low, high, |message|)
      requires count == Pending(|message|) && count < 56
      modifies buffer, intermediate
      ensures Buffer(buffer) == Md5Rfc.Absorb(Md5Rfc.Padded(message))
    {
      PaddedOnce(message);
      hide Md5Rfc.Absorb, Buffer, Whole, Tail, Counts, Md5Rfc.LengthBytes, Md5Rfc.Padded;
      PadTo(count, 56);
      FinishBlock(message, Whole(message));
    }

    /** Final padding, in one block or two, and the digest of everything taken in. */
    method MD5Final(digest: array<Byte>)
      requires Valid() && digest.Length >= 16 && digest != intermediate
      modifies buffer, intermediate, digest
      ensures digest[..16] == Md5Rfc.Md5(message)
      ensures digest[16..] == old(digest[16..])
    {
      var count := low as nat / 8 % 64;
      PendingFromCounter(low, high, |message|);
      hide Holds, Counts, Pending;
      if 64 - 1 - count < 8 {
        PadTwice(count);
      } else {
        PadOnce(count);
      }
      CopyOut(digest);
    }
  }

  lemma PaddedOnce(m: seq<Byte>)
    requires Pending(|m|) < 56
    ensures Md5Rfc.Padded(m) ==
            Whole(m) + (Tail(m) + [0x80] + Md5Rfc.Zeros(55 - Pending(|m|)) + Md5Rfc.LengthBytes(|m|))
  {
    hide Whole, Tail, Md5Rfc.LengthBytes;
  }

  lemma PaddedTwice(m: seq<Byte>)
    requires Pending(|m|) >= 56
    ensures Md5Rfc.Padded(m) ==
            Whole(m) + (Tail(m) + [0x80] + Md5Rfc.Zeros(63 - Pending(|m|)))
            + (Md5Rfc.Zeros(56) + Md5Rfc.LengthBytes(|m|))
  {
  }

  /** The whole function: RFC 1321's digest of the first `len` input bytes. */
  method Md5Sum(input: array<Byte>, len: Word, digest: array<Byte>)
    requires len as nat <= input.Length && digest.Length >= 16 && digest != input
    modifies digest
    ensures digest[..16] == Md5Rfc.Md5(input[..len])
    ensures digest[16..] == old(digest[16..])
  {
    var context := new MD5Context();
    context.MD5Update(input, len);
    assert context.message == input[..len];
    context.MD5Final(digest);
  }

  /** Any sequence of pieces: the digest is that of their concatenation. */
  method Md5Pieces(pieces: seq<array<Byte>>, digest: array<Byte>)
    requires digest.Length >= 16
    requires forall k | 0 <= k < |pieces| :: pieces[k].Length < 0x1_0000_0000 && pieces[k] != digest
    modifies digest
    ensures digest[..16] == Md5Rfc.Md5(Joined(pieces, |pieces|))
  {
    var context := new MD5Context();
    UpdateAll(context, pieces);
    context.MD5Final(digest);
  }

  method UpdateAll(context: MD5Context, pieces: seq<array<Byte>>)
    requires context.Valid() && context.message == []
    requires forall k | 0 <= k < |pieces| :: pieces[k].Length < 0x1_0000_0000 && pieces[k] != context.intermediate
    modifies context, context.buffer, context.intermediate
    ensures context.Valid() && context.message == Joined(pieces, |pieces|)
    ensures forall k | 0 <= k < |pieces| :: pieces[k][..] == old(pieces[k][..])
  {
    hide MD5Context.Valid;
    var k := 0;
    while k < |pieces|
      invariant 0 <= k <= |pieces|
      invariant context.Valid() && context.message == Joined(pieces, k)
      invariant forall j | 0 <= j < |pieces| :: pieces[j][..] == old(pieces[j][..])
    {
      ghost var joined := Joined(pieces, k + 1);
      context.MD5Update(pieces[k], pieces[k].Length as Word);
      assert pieces[k][..] == pieces[k][..pieces[k].Length];
      k := k + 1;
    }
  }

  ghost function Joined(pieces: seq<array<Byte>>, k: nat): seq<Byte>
    requires k <= |pieces|
    reads pieces
  {
    if k == 0 then [] else Joined(pieces, k - 1) + pieces[k - 1][..]
  }
}
