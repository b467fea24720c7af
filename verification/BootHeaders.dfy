/** Partition headers of a boot image (LAB_2/hdf/image_mover.c and image_mover.h). */
module BootHeaders {
  import opened Bytes

  /** Sixteen words; word 15 is the checksum of the others. */
  type Header = h: seq<Word> | |h| == 16 witness seq(16, _ => 0 as Word)

  const MAX_PARTITION_NUMBER: nat := 14

  function ImageWordLen(h: Header): nat { h[0] as nat }
  function DataWordLen(h: Header): nat { h[1] as nat }
  function PartitionWordLen(h: Header): nat { h[2] as nat }
  function LoadAddr(h: Header): nat { h[3] as nat }
  function ExecAddr(h: Header): nat { h[4] as nat }
  function Attr(h: Header): nat { h[6] as nat }

  // The attribute bits, as the masks of image_mover.h select them.

  predicate HasPs(h: Header) { Attr(h) / 0x10 % 2 == 1 }
  predicate HasPl(h: Header) { Attr(h) / 0x20 % 2 == 1 }
  predicate HasChecksum(h: Header) { Attr(h) / 0x1000 % 8 != 0 }
  predicate IsSigned(h: Header) { Attr(h) / 0x8000 % 2 == 1 }
  predicate OwnedByFsbl(h: Header) { Attr(h) / 0x10000 % 4 == 0 }
  predicate IsEncrypted(h: Header) { DataWordLen(h) != ImageWordLen(h) }

  predicate IsTerminator(h: Header) {
    h[15] == 0xFFFF_FFFF && forall k | 0 <= k < 15 :: h[k] == 0
  }

  function SumOf(words: seq<Word>): Word {
    if words == [] then 0 else Plus(SumOf(words[..|words| - 1]), words[|words| - 1])
  }

  predicate ChecksumHolds(h: Header) {
    h[15] as int == 0xFFFF_FFFF - SumOf(h[..15]) as int
  }

  predicate ValidHeader(h: Header) {
    ChecksumHolds(h) && ImageWordLen(h) <= 0x4000_0000
  }

  method IsLastPartition(h: Header) returns (last: bool)
    ensures last <==> IsTerminator(h)
  {
    if h[15] != 0xFFFF_FFFF {
      return false;
    }
    var index := 0;
    while index < 15
      invariant 0 <= index <= 15
      invariant forall k | 0 <= k < index :: h[k] == 0
    {
      if h[index] != 0 {
        return false;
      }
      index := index + 1;
    }
    return true;
  }

  method IsEmptyHeader(h: Header) returns (empty: bool)
    ensures empty <==> forall k | 0 <= k < 16 :: h[k] == 0
  {
    var index := 0;
    while index < 16
      invariant 0 <= index <= 16
      invariant forall k | 0 <= k < index :: h[k] == 0
    {
      if h[index] != 0 {
        return false;
      }
      index := index + 1;
    }
    return true;
  }

  lemma {:induction false} SumOfZeros(words: seq<Word>)
    requires forall k | 0 <= k < |words| :: words[k] == 0
    ensures SumOf(words) == 0
  {
    if words != [] {
      SumOfZeros(words[..|words| - 1]);
    }
  }

  /** An all-zero header fails its own checksum: the separate test for it is not needed. */
  lemma EmptyIsInvalid(h: Header)
    requires forall k | 0 <= k < 16 :: h[k] == 0
    ensures !ChecksumHolds(h)
  {
    SumOfZeros(h[..15]);
  }

  /** A terminator does pass the header check; only the count keeps the walk off it. */
  lemma TerminatorIsValid(h: Header)
    requires IsTerminator(h)
    ensures ValidHeader(h)
  {
    SumOfZeros(h[..15]);
  }

  method ValidatePartitionHeaderChecksum(h: Header) returns (ok: bool)
    ensures ok <==> ChecksumHolds(h)
  {
    var checksum: Word, count: nat := 0, 0;
    while count < 15
      invariant 0 <= count <= 15
      invariant checksum == SumOf(h[..count])
    {
      assert h[..count + 1][..count] == h[..count];
      checksum := Plus(checksum, h[count]);
      count := count + 1;
    }
    ok := h[15] == 0xFFFF_FFFF - checksum;
  }

  method ValidateHeader(h: Header) returns (ok: bool)
    ensures ok <==> ValidHeader(h)
  {
    var empty := IsEmptyHeader(h);
    if empty {
      EmptyIsInvalid(h);
      return false;
    }
    ok := ValidatePartitionHeaderChecksum(h);
    if ok {
      ok := ImageWordLen(h) <= 0x4000_0000;
    }
  }

  /** The headers before the first terminator, or all of them. */
  method GetPartitionCount(headers: seq<Header>) returns (count: nat)
    requires |headers| == MAX_PARTITION_NUMBER
    ensures count <= |headers|
    ensures forall k | 0 <= k < count :: !IsTerminator(headers[k])
    ensures count < |headers| ==> IsTerminator(headers[count])
  {
    count := 0;
    while count < MAX_PARTITION_NUMBER
      invariant 0 <= count <= |headers|
      invariant forall k | 0 <= k < count :: !IsTerminator(headers[k])
    {
      var last := IsLastPartition(headers[count]);
      if last {
        break;
      }
      count := count + 1;
    }
  }
}
