/** RFC 1321, "The MD5 Message-Digest Algorithm": the reference definition. */
module Md5Rfc {
  import opened Bytes

  /** The four-word buffer of section 3.3. */
  datatype State = State(a: Word, b: Word, c: Word, d: Word)

  const INITIAL := State(0x67452301, 0xefcdab89, 0x98badcfe, 0x10325476)

  // Section 3.4: the four auxiliary functions.

  function F(x: Word, y: Word, z: Word): Word {
    var p, q, r := x as bv32, y as bv32, z as bv32;
    ((p & q) | (!p & r)) as Word
  }

  function G(x: Word, y: Word, z: Word): Word {
    var p, q, r := x as bv32, y as bv32, z as bv32;
    ((p & r) | (q & !r)) as Word
  }

  function H(x: Word, y: Word, z: Word): Word {
    ((x as bv32) ^ (y as bv32) ^ (z as bv32)) as Word
  }

  function I(x: Word, y: Word, z: Word): Word {
    ((y as bv32) ^ ((x as bv32) | !(z as bv32))) as Word
  }

  /** The auxiliary function of operation `i`: one per round of sixteen. */
  function Aux(i: nat, x: Word, y: Word, z: Word): Word {
    if i < 16 then F(x, y, z) else if i < 32 then G(x, y, z) else if i < 48 then H(x, y, z) else I(x, y, z)
  }

  /** The message word that operation `i` uses. */
  function Index(i: nat): (k: nat)
    ensures k < 16
  {
    (if i < 16 then i else if i < 32 then 1 + 5 * i else if i < 48 then 5 + 3 * i else 7 * i) % 16
  }

  /** The shift of operation `i`. */
  function Shift(i: nat): (s: nat)
    ensures 0 < s < 32
  {
    var row := if i < 16 then [7, 12, 17, 22] else if i < 32 then [5, 9, 14, 20]
               else if i < 48 then [4, 11, 16, 23] else [6, 10, 15, 21];
    row[i % 4]
  }

  /** The table T: the integer part of 4294967296 times abs(sin(i + 1)). */
  function T(i: nat): Word
    requires i < 64
  {
    if i < 16 then T1[i] else if i < 32 then T2[i - 16] else if i < 48 then T3[i - 32] else T4[i - 48]
  }

  const T1: seq<Word> := [
    0xd76aa478, 0xe8c7b756, 0x242070db, 0xc1bdceee, 0xf57c0faf, 0x4787c62a, 0xa8304613, 0xfd469501,
    0x698098d8, 0x8b44f7af, 0xffff5bb1, 0x895cd7be, 0x6b901122, 0xfd987193, 0xa679438e, 0x49b40821]

  const T2: seq<Word> := [
    0xf61e2562, 0xc040b340, 0x265e5a51, 0xe9b6c7aa, 0xd62f105d, 0x02441453, 0xd8a1e681, 0xe7d3fbc8,
    0x21e1cde6, 0xc33707d6, 0xf4d50d87, 0x455a14ed, 0xa9e3e905, 0xfcefa3f8, 0x676f02d9, 0x8d2a4c8a]

  const T3: seq<Word> := [
    0xfffa3942, 0x8771f681, 0x6d9d6122, 0xfde5380c, 0xa4beea44, 0x4bdecfa9, 0xf6bb4b60, 0xbebfbc70,
    0x289b7ec6, 0xeaa127fa, 0xd4ef3085, 0x04881d05, 0xd9d4d039, 0xe6db99e5, 0x1fa27cf8, 0xc4ac5665]

  const T4: seq<Word> := [
    0xf4292244, 0x432aff97, 0xab9423a7, 0xfc93a039, 0x655b59c3, 0x8f0ccc92, 0xffeff47d, 0x85845dd1,
    0x6fa87e4f, 0xfe2ce6e0, 0xa3014314, 0x4e0811a1, 0xf7537e82, 0xbd3af235, 0x2ad7d2bb, 0xeb86d391]

  /** "X <<< s", as the RFC's reference implementation computes it (appendix A.3). */
  function Rotated(w: Word, s: nat): Word
    requires 0 < s < 32
  {
    (((w as bv32) << s) | ((w as bv32) >> (32 - s))) as Word
  }

  /** "a = b + ((a + F(b,c,d) + X[k] + T[i]) <<< s)", after which the roles of the
      four words move on by one. */
  function Operation(i: nat, s: State, x: seq<Word>): State
    requires i < 64 && |x| == 16
  {
    var sum := Plus(Plus(Plus(s.a, Aux(i, s.b, s.c, s.d)), x[Index(i)]), T(i));
    State(s.d, Plus(s.b, Rotated(sum, Shift(i))), s.b, s.c)
  }

  function Operations(n: nat, s: State, x: seq<Word>): State
    requires n <= 64 && |x| == 16
  {
    if n == 0 then s else Operation(n - 1, Operations(n - 1, s, x), x)
  }

  function Block(s: State, x: seq<Word>): State
    requires |x| == 16
  {
    var r := Operations(64, s, x);
    State(Plus(s.a, r.a), Plus(s.b, r.b), Plus(s.c, r.c), Plus(s.d, r.d))
  }

  /** Words are stored low-order byte first. */
  function Words(block: seq<Byte>): (x: seq<Word>)
    requires |block| == 64
    ensures |x| == 16
  {
    seq(16, k requires 0 <= k < 16 => WordOf(block[4 * k..4 * k + 4]))
  }

  /** The buffer after all whole blocks of a message. */
  function Absorb(m: seq<Byte>): State {
    if |m| < 64 then INITIAL
    else Block(Absorb(m[..|m| - 64]), Words(m[|m| - 64..]))
  }

  function Zeros(n: nat): (z: seq<Byte>)
    ensures |z| == n && forall i | 0 <= i < n :: z[i] == 0
  {
    seq(n, _ => 0 as Byte)
  }

  /** Bytes of 0 bits after the 0x80 byte: the fewest that reach 56 modulo 64. */
  function ZeroCount(n: nat): (z: nat)
    ensures z < 64 && (n + 1 + z) % 64 == 56
  {
    var r := n % 64;
    if r < 56 then 55 - r else 119 - r
  }

  function LengthBytes(n: nat): (bytes: seq<Byte>)
    ensures |bytes| == 8
  {
    WordBytes((8 * n % 0x1_0000_0000) as Word) + WordBytes((8 * n / 0x1_0000_0000 % 0x1_0000_0000) as Word)
  }

  /** Section 3.1: a 1 bit, then 0 bits up to 448 modulo 512; section 3.2: the length in
      bits as two words, the low-order word first, only the low 64 bits used. */
  function Padded(m: seq<Byte>): (p: seq<Byte>)
    ensures |p| == |m| + 1 + ZeroCount(|m|) + 8 && |p| % 64 == 0
  {
    var n := |m| + 1 + ZeroCount(|m|);
    assert n % 64 == 56 && (n + 8) % 64 == 0;
    m + [0x80 as Byte] + Zeros(ZeroCount(|m|)) + LengthBytes(|m|)
  }

  /** Section 3.5: A, B, C, D, each low-order byte first. */
  function Digest(s: State): (d: seq<Byte>)
    ensures |d| == 16
  {
    WordBytes(s.a) + WordBytes(s.b) + WordBytes(s.c) + WordBytes(s.d)
  }

  function Md5(m: seq<Byte>): (d: seq<Byte>)
    ensures |d| == 16
  {
    Digest(Absorb(Padded(m)))
  }
}
