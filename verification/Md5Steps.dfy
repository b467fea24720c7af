/** The block function of LAB_2/hdf/md5.c and md5.h against RFC 1321, section 3.4. */
module Md5Steps {
  import opened Bytes
  import opened Md5Rfc

  // The rewritten auxiliary functions of md5.h.

  function F1(x: Word, y: Word, z: Word): Word {
    var p, q, r := x as bv32, y as bv32, z as bv32;
    (r ^ (p & (q ^ r))) as Word
  }

  function F2(x: Word, y: Word, z: Word): Word {
    F1(z, x, y)
  }

  function F3(x: Word, y: Word, z: Word): Word {
    ((x as bv32) ^ (y as bv32) ^ (z as bv32)) as Word
  }

  function F4(x: Word, y: Word, z: Word): Word {
    ((y as bv32) ^ ((x as bv32) | !(z as bv32))) as Word
  }

  /** F1 is the RFC's F. */
  lemma F1IsF(x: Word, y: Word, z: Word)
    ensures F1(x, y, z) == F(x, y, z)
  {
  }

  /** F2, which is F1 with its arguments turned, is the RFC's G. */
  lemma F2IsG(x: Word, y: Word, z: Word)
    ensures F2(x, y, z) == G(x, y, z)
  {
  }

  /** Shifting left and right and joining, as Rotated does, is a circular shift, for every
      shift MD5 uses. */
  lemma SmallRotations(w: bv32)
    ensures (w << 4) | (w >> 28) == w.RotateLeft(4)
    ensures (w << 5) | (w >> 27) == w.RotateLeft(5)
    ensures (w << 6) | (w >> 26) == w.RotateLeft(6)
    ensures (w << 7) | (w >> 25) == w.RotateLeft(7)
    ensures (w << 9) | (w >> 23) == w.RotateLeft(9)
    ensures (w << 10) | (w >> 22) == w.RotateLeft(10)
    ensures (w << 11) | (w >> 21) == w.RotateLeft(11)
    ensures (w << 12) | (w >> 20) == w.RotateLeft(12)
  {
  }

  lemma LargeRotations(w: bv32)
    ensures (w << 14) | (w >> 18) == w.RotateLeft(14)
    ensures (w << 15) | (w >> 17) == w.RotateLeft(15)
    ensures (w << 16) | (w >> 16) == w.RotateLeft(16)
    ensures (w << 17) | (w >> 15) == w.RotateLeft(17)
    ensures (w << 20) | (w >> 12) == w.RotateLeft(20)
    ensures (w << 21) | (w >> 11) == w.RotateLeft(21)
    ensures (w << 22) | (w >> 10) == w.RotateLeft(22)
    ensures (w << 23) | (w >> 9) == w.RotateLeft(23)
  {
  }

  // ---------------------------------------------------------------------------------
  // Four operations at a time
  // ---------------------------------------------------------------------------------

  datatype Round = One | Two | Three | Four

  function Mix(f: Round, x: Word, y: Word, z: Word): Word {
    match f
    case One => F1(x, y, z)
    case Two => F2(x, y, z)
    case Three => F3(x, y, z)
    case Four => F4(x, y, z)
  }

  function RoundOf(i: nat): Round {
    if i < 16 then One else if i < 32 then Two else if i < 48 then Three else Four
  }

  /** MD5_STEP: the new value of its word argument `w`. */
  function Step(f: Round, w: Word, x: Word, y: Word, z: Word, data: Word, s: nat): Word
    requires 0 < s < 32
  {
    var sum := Plus(w, Plus(Mix(f, x, y, z), data));
    Plus(Rotated(sum, s), x)
  }

  lemma MixIsAux(i: nat, x: Word, y: Word, z: Word)
    requires i < 64
    ensures Mix(RoundOf(i), x, y, z) == Aux(i, x, y, z)
  {
    F1IsF(x, y, z);
    F2IsG(x, y, z);
    hide F1, F2, F, G;
  }

  /** Addition goes round at most once. */
  lemma PlusOnce(x: Word, y: Word)
    ensures var sum := x as int + y as int;
            Plus(x, y) as int == if sum < 0x1_0000_0000 then sum else sum - 0x1_0000_0000
  {
  }

  lemma PlusAssociates(x: Word, y: Word, z: Word)
    ensures Plus(x, Plus(y, z)) == Plus(Plus(x, y), z)
  {
    PlusOnce(y, z);
    PlusOnce(x, Plus(y, z));
    PlusOnce(x, y);
    PlusOnce(Plus(x, y), z);
    hide Plus;
  }

  lemma PlusCommutes(x: Word, y: Word)
    ensures Plus(x, y) == Plus(y, x)
  {
  }

  /** One MD5_STEP is one operation of the RFC. */
  lemma StepIsOperation(i: nat, st: State, x: seq<Word>)
    requires i < 64 && |x| == 16
    ensures Operation(i, st, x) ==
            State(st.d, Step(RoundOf(i), st.a, st.b, st.c, st.d, Plus(x[Index(i)], T(i)), Shift(i)), st.b, st.c)
  {
    hide Mix, Aux, Rotated, Shift, Index, T, Plus;
    var f := Mix(RoundOf(i), st.b, st.c, st.d);
    MixIsAux(i, st.b, st.c, st.d);
    PlusAssociates(f, x[Index(i)], T(i));
    PlusAssociates(st.a, Plus(f, x[Index(i)]), T(i));
    PlusAssociates(st.a, f, x[Index(i)]);
    var sum := Plus(Plus(Plus(st.a, f), x[Index(i)]), T(i));
    PlusCommutes(st.b, Rotated(sum, Shift(i)));
  }

  /** One MD5_STEP statement, operation `i` of the block. */
  method OneStep(f: Round, w: Word, x: Word, y: Word, z: Word, data: Word, s: nat,
                 ghost i: nat, ghost st: State, ghost words: seq<Word>)
    returns (w': Word)
    requires i < 64 && f == RoundOf(i) && s == Shift(i) && |words| == 16
    requires data == Plus(words[Index(i)], T(i))
    requires State(w, x, y, z) == Operations(i, st, words)
    ensures State(z, w', x, y) == Operations(i + 1, st, words)
  {
    StepIsOperation(i, State(w, x, y, z), words);
    hide Step, Operation, Shift, Index, T, RoundOf, Plus;
    w' := Step(f, w, x, y, z, data, s);
  }

  /** The four statements of one line group, in which a, d, c and b take turns. */
  method FourSteps(f: Round, a0: Word, b0: Word, c0: Word, d0: Word, x0: Word, x1: Word, x2: Word, x3: Word,
                   s0: nat, s1: nat, s2: nat, s3: nat, ghost q: nat, ghost st: State, ghost x: seq<Word>)
    returns (a: Word, b: Word, c: Word, d: Word)
    requires q < 16 && f == RoundOf(4 * q) && |x| == 16
    requires s0 == Shift(4 * q) && s1 == Shift(4 * q + 1) && s2 == Shift(4 * q + 2) && s3 == Shift(4 * q + 3)
    requires x0 == Plus(x[Index(4 * q)], T(4 * q)) && x1 == Plus(x[Index(4 * q + 1)], T(4 * q + 1))
    requires x2 == Plus(x[Index(4 * q + 2)], T(4 * q + 2)) && x3 == Plus(x[Index(4 * q + 3)], T(4 * q + 3))
    requires State(a0, b0, c0, d0) == Operations(4 * q, st, x)
    ensures State(a, b, c, d) == Operations(4 * q + 4, st, x)
  {
    hide Operations, Shift, Index, T, Plus;
    a := OneStep(f, a0, b0, c0, d0, x0, s0, 4 * q, st, x);
    d := OneStep(f, d0, a, b0, c0, x1, s1, 4 * q + 1, st, x);
    c := OneStep(f, c0, d, a, b0, x2, s2, 4 * q + 2, st, x);
    b := OneStep(f, b0, c, d, a, x3, s3, 4 * q + 3, st, x);
  }

  method Round1(a0: Word, b0: Word, c0: Word, d0: Word, x: seq<Word>, ghost st: State)
    returns (a: Word, b: Word, c: Word, d: Word)
    requires |x| == 16 && State(a0, b0, c0, d0) == Operations(0, st, x)
    ensures State(a, b, c, d) == Operations(16, st, x)
  {
    hide Operations, Plus;
    a, b, c, d := a0, b0, c0, d0;
    a, b, c, d := FourSteps(One, a, b, c, d, Plus(x[0], 0xd76aa478), Plus(x[1], 0xe8c7b756),
                            Plus(x[2], 0x242070db), Plus(x[3], 0xc1bdceee), 7, 12, 17, 22, 0, st, x);
    a, b, c, d := FourSteps(One, a, b, c, d, Plus(x[4], 0xf57c0faf), Plus(x[5], 0x4787c62a),
                            Plus(x[6], 0xa8304613), Plus(x[7], 0xfd469501), 7, 12, 17, 22, 1, st, x);
    a, b, c, d := FourSteps(One, a, b, c, d, Plus(x[8], 0x698098d8), Plus(x[9], 0x8b44f7af),
                            Plus(x[10], 0xffff5bb1), Plus(x[11], 0x895cd7be), 7, 12, 17, 22, 2, st, x);
    a, b, c, d := FourSteps(One, a, b, c, d, Plus(x[12], 0x6b901122), Plus(x[13], 0xfd987193),
                            Plus(x[14], 0xa679438e), Plus(x[15], 0x49b40821), 7, 12, 17, 22, 3, st, x);
  }

  method Round2(a0: Word, b0: Word, c0: Word, d0: Word, x: seq<Word>, ghost st: State)
    returns (a: Word, b: Word, c: Word, d: Word)
    requires |x| == 16 && State(a0, b0, c0, d0) == Operations(16, st, x)
    ensures State(a, b, c, d) == Operations(32, st, x)
  {
    hide Operations, Plus;
    a, b, c, d := a0, b0, c0, d0;
    a, b, c, d := FourSteps(Two, a, b, c, d, Plus(x[1], 0xf61e2562), Plus(x[6], 0xc040b340),
                            Plus(x[11], 0x265e5a51), Plus(x[0], 0xe9b6c7aa), 5, 9, 14, 20, 4, st, x);
    a, b, c, d := FourSteps(Two, a, b, c, d, Plus(x[5], 0xd62f105d), Plus(x[10], 0x02441453),
                            Plus(x[15], 0xd8a1e681), Plus(x[4], 0xe7d3fbc8), 5, 9, 14, 20, 5, st, x);
    a, b, c, d := FourSteps(Two, a, b, c, d, Plus(x[9], 0x21e1cde6), Plus(x[14], 0xc33707d6),
                            Plus(x[3], 0xf4d50d87), Plus(x[8], 0x455a14ed), 5, 9, 14, 20, 6, st, x);
    a, b, c, d := FourSteps(Two, a, b, c, d, Plus(x[13], 0xa9e3e905), Plus(x[2], 0xfcefa3f8),
                            Plus(x[7], 0x676f02d9), Plus(x[12], 0x8d2a4c8a), 5, 9, 14, 20, 7, st, x);
  }

  method Round3(a0: Word, b0: Word, c0: Word, d0: Word, x: seq<Word>, ghost st: State)
    returns (a: Word, b: Word, c: Word, d: Word)
    requires |x| == 16 && State(a0, b0, c0, d0) == Operations(32, st, x)
    ensures State(a, b, c, d) == Operations(48, st, x)
  {
    hide Operations, Plus;
    a, b, c, d := a0, b0, c0, d0;
    a, b, c, d := FourSteps(Three, a, b, c, d, Plus(x[5], 0xfffa3942), Plus(x[8], 0x8771f681),
                            Plus(x[11], 0x6d9d6122), Plus(x[14], 0xfde5380c), 4, 11, 16, 23, 8, st, x);
    a, b, c, d := FourSteps(Three, a, b, c, d, Plus(x[1], 0xa4beea44), Plus(x[4], 0x4bdecfa9),
                            Plus(x[7], 0xf6bb4b60), Plus(x[10], 0xbebfbc70), 4, 11, 16, 23, 9, st, x);
    a, b, c, d := FourSteps(Three, a, b, c, d, Plus(x[13], 0x289b7ec6), Plus(x[0], 0xeaa127fa),
                            Plus(x[3], 0xd4ef3085), Plus(x[6], 0x04881d05), 4, 11, 16, 23, 10, st, x);
    a, b, c, d := FourSteps(Three, a, b, c, d, Plus(x[9], 0xd9d4d039), Plus(x[12], 0xe6db99e5),
                            Plus(x[15], 0x1fa27cf8), Plus(x[2], 0xc4ac5665), 4, 11, 16, 23, 11, st, x);
  }

  method Round4(a0: Word, b0: Word, c0: Word, d0: Word, x: seq<Word>, ghost st: State)
    returns (a: Word, b: Word, c: Word, d: Word)
    requires |x| == 16 && State(a0, b0, c0, d0) == Operations(48, st, x)
    ensures State(a, b, c, d) == Operations(64, st, x)
  {
    hide Operations, Plus;
    a, b, c, d := a0, b0, c0, d0;
    a, b, c, d := FourSteps(Four, a, b, c, d, Plus(x[0], 0xf4292244), Plus(x[7], 0x432aff97),
                            Plus(x[14], 0xab9423a7), Plus(x[5], 0xfc93a039), 6, 10, 15, 21, 12, st, x);
    a, b, c, d := FourSteps(Four, a, b, c, d, Plus(x[12], 0x655b59c3), Plus(x[3], 0x8f0ccc92),
                            Plus(x[10], 0xffeff47d), Plus(x[1], 0x85845dd1), 6, 10, 15, 21, 13, st, x);
    a, b, c, d := FourSteps(Four, a, b, c, d, Plus(x[8], 0x6fa87e4f), Plus(x[15], 0xfe2ce6e0),
                            Plus(x[6], 0xa3014314), Plus(x[13], 0x4e0811a1), 6, 10, 15, 21, 14, st, x);
    a, b, c, d := FourSteps(Four, a, b, c, d, Plus(x[4], 0xf7537e82), Plus(x[11], 0xbd3af235),
                            Plus(x[2], 0x2ad7d2bb), Plus(x[9], 0xeb86d391), 6, 10, 15, 21, 15, st, x);
  }

  /** The block function: 64 steps on copies of the four words, then added in. */
  method MD5Transform(buffer: array<Word>, intermediate: array<Byte>)
    requires buffer.Length == 4 && intermediate.Length == 64
    modifies buffer
    ensures Buffer(buffer) == Block(old(Buffer(buffer)), Words(intermediate[..]))
  {
    var x := Words(intermediate[..]);
    ghost var st := Buffer(buffer);
    assert Operations(0, st, x) == st;
    hide Operations, Words, Plus, WordOf, Operation;
    var a, b, c, d := buffer[0], buffer[1], buffer[2], buffer[3];
    a, b, c, d := Round1(a, b, c, d, x, st);
    a, b, c, d := Round2(a, b, c, d, x, st);
    a, b, c, d := Round3(a, b, c, d, x, st);
    a, b, c, d := Round4(a, b, c, d, x, st);
    AddIn(buffer, a, b, c, d);
  }

  method AddIn(buffer: array<Word>, a: Word, b: Word, c: Word, d: Word)
    requires buffer.Length == 4
    modifies buffer
    ensures var s := old(Buffer(buffer));
            Buffer(buffer) == State(Plus(s.a, a), Plus(s.b, b), Plus(s.c, c), Plus(s.d, d))
  {
    hide Plus;
    buffer[0] := Plus(buffer[0], a);
    buffer[1] := Plus(buffer[1], b);
    buffer[2] := Plus(buffer[2], c);
    buffer[3] := Plus(buffer[3], d);
  }

  function Buffer(buffer: array<Word>): State
    requires buffer.Length == 4
    reads buffer
  {
    State(buffer[0], buffer[1], buffer[2], buffer[3])
  }
}
