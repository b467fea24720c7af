/** The digest of "abc" given in appendix A.5 of RFC 1321, operation by operation: it fixes the
    start words, the table, the shifts and the order of the message words. */
module Md5Sample {
  import opened Bytes
  import opened Md5Rfc

  /** The padded message as sixteen words. */
  const X: seq<Word> := [0x80636261, 0, 0, 0, 0, 0, 0, 0, 0, 0, 0, 0, 0, 0, 24, 0]

  predicate Reached(n: nat, s: State)
    requires n <= 64
  {
    Operations(n, INITIAL, X) == s
  }

  /** One operation more, from the value of its auxiliary function, its sum and that rotated. */
  lemma Done(i: nat, s: State, f: Word, sum: Word, r: Word, next: State)
    requires i < 64 && Reached(i, s) && Aux(i, s.b, s.c, s.d) == f
    requires Plus(Plus(Plus(s.a, f), X[Index(i)]), T(i)) == sum && Rotated(sum, Shift(i)) == r
    requires next == State(s.d, Plus(s.b, r), s.b, s.c)
    ensures Reached(i + 1, next)
  {
    hide Aux, Rotated, T, Index, Shift, Plus;
  }

  lemma Values1()
    ensures Aux(0, 0xefcdab89, 0x98badcfe, 0x10325476) == 0x98badcfe
    ensures Aux(1, 0xd6d117b4, 0xefcdab89, 0x98badcfe) == 0xceebcbca
    ensures Aux(2, 0x344a8432, 0xd6d117b4, 0xefcdab89) == 0xdfc52fb9
    ensures Aux(3, 0x2f6fbd72, 0x344a8432, 0xd6d117b4) == 0xf4da86b6
    ensures Aux(4, 0x7ad956f2, 0x2f6fbd72, 0x344a8432) == 0x2e4b9472
    ensures Aux(5, 0xc73741ef, 0x7ad956f2, 0x2f6fbd72) == 0x6a59fcf2
    ensures Aux(6, 0x8bac3051, 0xc73741ef, 0x7ad956f2) == 0xf37546e3
    ensures Aux(7, 0x207dc67b, 0x8bac3051, 0xc73741ef) == 0xc72e01d5
    ensures Aux(8, 0x928d99f6, 0x207dc67b, 0x8bac3051) == 0x092da073
    ensures Aux(9, 0x854b3712, 0x928d99f6, 0x207dc67b) == 0xa03dd17b
    ensures Aux(10, 0x74e2f284, 0x854b3712, 0x928d99f6) == 0x864f3b72
    ensures Aux(11, 0x3020401c, 0x74e2f284, 0x854b3712) == 0xb56b7706
    ensures Aux(12, 0x5ed49596, 0x3020401c, 0x74e2f284) == 0x30226214
    ensures Aux(13, 0xdda9b9a6, 0x5ed49596, 0x3020401c) == 0x7c80d19e
    ensures Aux(14, 0xa1051895, 0xdda9b9a6, 0x5ed49596) == 0xdfd19d86
    ensures Aux(15, 0xe396856b, 0xa1051895, 0xdda9b9a6) == 0xbd2d3885
  {
  }

  lemma Rotations1()
    ensures Rotated(0x57ce06d8, 7) == 0xe7036c2b
    ensures Rotated(0xc7e5d796, 12) == 0x5d796c7e
    ensures Rotated(0x9ca07d92, 17) == 0xfb253940
    ensures Rotated(0xa666012d, 22) == 0x4b699980
    ensures Rotated(0xfa98bbd5, 7) == 0x4c5deafd
    ensures Rotated(0xe62c474e, 12) == 0xc474ee62
    ensures Rotated(0xcb154a68, 17) == 0x94d1962a
    ensures Rotated(0x3f4dedc8, 22) == 0x720fd37b
    ensures Rotated(0x39e57b3a, 7) == 0xf2bd9d1c
    ensures Rotated(0xb72ef97b, 12) == 0xef97bb72
    ensures Rotated(0xa6cc5d9e, 17) == 0xbb3d4d98
    ensures Rotated(0xd155e8ba, 22) == 0x2eb4557a
    ensures Rotated(0x20fdaa48, 7) == 0x7ed52410
    ensures Rotated(0xeefc35b5, 12) == 0xc35b5eef
    ensures Rotated(0xb66b2148, 17) == 0x42916cd6
    ensures Rotated(0x65b5d63c, 22) == 0x8f196d75
  {
  }

  lemma Values2()
    ensures Aux(16, 0x72aff2e0, 0xe396856b, 0xa1051895) == 0x629795ea
    ensures Aux(17, 0x3e9e9126, 0x72aff2e0, 0xe396856b) == 0x32bff3a2
    ensures Aux(18, 0x4a1d804e, 0x3e9e9126, 0x72aff2e0) == 0x4e1d8146
    ensures Aux(19, 0xe25e1652, 0x4a1d804e, 0x3e9e9126) == 0x621f104a
    ensures Aux(20, 0xb5b204e4, 0xe25e1652, 0x4a1d804e) == 0xa0521654
    ensures Aux(21, 0x59a8ffda, 0xb5b204e4, 0xe25e1652) == 0x55a816f6
    ensures Aux(22, 0x6d002f1e, 0x59a8ffda, 0xb5b204e4) == 0x6d08ff1e
    ensures Aux(23, 0xabfc7920, 0x6d002f1e, 0x59a8ffda) == 0x2da87904
    ensures Aux(24, 0x47092c07, 0xabfc7920, 0x6d002f1e) == 0xc7fc7c26
    ensures Aux(25, 0xb7f268cf, 0x47092c07, 0xabfc7920) == 0xe7f16c07
    ensures Aux(26, 0x09388eff, 0xb7f268cf, 0x47092c07) == 0xb1fa4ccf
    ensures Aux(27, 0xfe1623b1, 0x09388eff, 0xb7f268cf) == 0xbe1aa6b1
    ensures Aux(28, 0x786acb8f, 0xfe1623b1, 0x09388eff) == 0xfe2eab8f
    ensures Aux(29, 0x790a77fb, 0x786acb8f, 0xfe1623b1) == 0x786aebbf
    ensures Aux(30, 0x9f47e4f8, 0x790a77fb, 0x786acb8f) == 0x1942f4f8
    ensures Aux(31, 0xa62884aa, 0x9f47e4f8, 0x790a77fb) == 0xa64d84aa
  {
  }

  lemma Rotations2()
    ensures Rotated(0x365f74f2, 5) == 0xcbee9e46
    ensures Rotated(0x9405bf77, 9) == 0x0b7eef28
    ensures Rotated(0x58126102, 14) == 0x98409604
    ensures Rotated(0x3ee92d35, 20) == 0xd353ee92
    ensures Rotated(0xb51fb7d7, 5) == 0xa3f6faf6
    ensures Rotated(0xa209ab97, 9) == 0x13572f44
    ensures Rotated(0x2808fbf1, 14) == 0x3efc4a02
    ensures Rotated(0xcb2e79b0, 20) == 0x9b0cb2e7
    ensures Rotated(0x438749e6, 5) == 0x70e93cc8
    ensures Rotated(0x1828a313, 9) == 0x51462630
    ensures Rotated(0x52cbd376, 14) == 0xf4dd94b2
    ensures Rotated(0x4a7de7a5, 20) == 0x7a54a7de
    ensures Rotated(0x6004fd63, 5) == 0x009fac6c
    ensures Rotated(0x7e931eb6, 9) == 0x263d6cfd
    ensures Rotated(0x7ec81b82, 14) == 0x06e09fb2
    ensures Rotated(0xabe29cc3, 20) == 0xcc3abe29
  {
  }

  lemma Values3()
    ensures Aux(32, 0x726342d3, 0xa62884aa, 0x9f47e4f8) == 0x4b0c2281
    ensures Aux(33, 0xb3707ebf, 0x726342d3, 0xa62884aa) == 0x673bb8c6
    ensures Aux(34, 0x60127b2e, 0xb3707ebf, 0x726342d3) == 0xa1014742
    ensures Aux(35, 0x8d212ff5, 0x60127b2e, 0xb3707ebf) == 0x5e432a64
    ensures Aux(36, 0x3b0875c7, 0x8d212ff5, 0x60127b2e) == 0xd63b211c
    ensures Aux(37, 0x21b117b9, 0x3b0875c7, 0x8d212ff5) == 0x97984d8b
    ensures Aux(38, 0x6e7429d5, 0x21b117b9, 0x3b0875c7) == 0x74cd4bab
    ensures Aux(39, 0x3575227e, 0x6e7429d5, 0x21b117b9) == 0x7ab01c12
    ensures Aux(40, 0x5a2f5ea5, 0x3575227e, 0x6e7429d5) == 0x012e550e
    ensures Aux(41, 0x11de1779, 0x5a2f5ea5, 0x3575227e) == 0x7e846ba2
    ensures Aux(42, 0xfadcaa38, 0x11de1779, 0x5a2f5ea5) == 0xb12de3e4
    ensures Aux(43, 0x31c465ca, 0xfadcaa38, 0x11de1779) == 0xdac6d88b
    ensures Aux(44, 0x4c6124f4, 0x31c465ca, 0xfadcaa38) == 0x8779eb06
    ensures Aux(45, 0x7f2e507b, 0x4c6124f4, 0x31c465ca) == 0x028b1145
    ensures Aux(46, 0x99d9679d, 0x7f2e507b, 0x4c6124f4) == 0xaa961312
    ensures Aux(47, 0x8fae6399, 0x99d9679d, 0x7f2e507b) == 0x6959547f
  {
  }

  lemma Rotations3()
    ensures Rotated(0xc410d3be, 4) == 0x410d3bec
    ensures Rotated(0x8df5943f, 11) == 0xaca1fc6f
    ensures Rotated(0xb4c72d0e, 16) == 0x2d0eb4c7
    ensures Rotated(0xce8ba55b, 23) == 0xade745d2
    ensures Rotated(0x2e6a8a1f, 4) == 0xe6a8a1f2
    ensures Rotated(0x43899862, 11) == 0x4cc3121c
    ensures Rotated(0xf8a9c700, 16) == 0xc700f8a9
    ensures Rotated(0x74784e49, 23) == 0x24ba3c27
    ensures Rotated(0x4b7aeb8d, 4) == 0xb7aeb8d4
    ensures Rotated(0x57fd1fd2, 11) == 0xe8fe92bf
    ensures Rotated(0xbb9236e7, 16) == 0x36e7bb92
    ensures Rotated(0x397e5435, 23) == 0x1a9cbf2a
    ensures Rotated(0x732cd2b8, 4) == 0x32cd2b87
    ensures Rotated(0xe4435562, 11) == 0x1aab1722
    ensures Rotated(0xfbfcf5d4, 16) == 0xf5d4fbfc
    ensures Rotated(0x7a66cfd8, 23) == 0xec3d3367
  {
  }

  lemma Values4()
    ensures Aux(48, 0x7beb9700, 0x8fae6399, 0x99d9679d) == 0xf041fcfb
    ensures Aux(49, 0x7b201df8, 0x7beb9700, 0x8fae6399) == 0x009a0afe
    ensures Aux(50, 0xf4e8e96e, 0x7b201df8, 0x7beb9700) == 0x8fdcf407
    ensures Aux(51, 0xb298cefd, 0xf4e8e96e, 0x7b201df8) == 0x42370791
    ensures Aux(52, 0x8bf025c4, 0xb298cefd, 0xf4e8e96e) == 0x396ff928
    ensures Aux(53, 0x06cc5e8a, 0x8bf025c4, 0xb298cefd) == 0xc41f5a4e
    ensures Aux(54, 0x5b0d97aa, 0x06cc5e8a, 0x8bf025c4) == 0x79c38131
    ensures Aux(55, 0x7d632dd0, 0x5b0d97aa, 0x06cc5e8a) == 0xa67e3a5f
    ensures Aux(56, 0x3bfa2c27, 0x7d632dd0, 0x5b0d97aa) == 0xc29941a7
    ensures Aux(57, 0x7f81cc35, 0x3bfa2c27, 0x7d632dd0) == 0xc467f218
    ensures Aux(58, 0x094454ab, 0x7f81cc35, 0x3bfa2c27) == 0xb2c41bce
    ensures Aux(59, 0x4f9dbe3f, 0x094454ab, 0x7f81cc35) == 0xc6bbeb54
    ensures Aux(60, 0x7327d604, 0x4f9dbe3f, 0x094454ab) == 0xb822416b
    ensures Aux(61, 0x310ade8f, 0x7327d604, 0x4f9dbe3f) == 0xc24d09cb
    ensures Aux(62, 0x624d8cb2, 0x310ade8f, 0x7327d604) == 0xdfd77374
    ensures Aux(63, 0xe484b9d8, 0x624d8cb2, 0x310ade8f) == 0x8cb8354a
  {
  }

  lemma Rotations4()
    ensures Rotated(0xe3fcd21b, 6) == 0xff3486f8
    ensures Rotated(0xdd9e7232, 10) == 0x79c8cb76
    ensures Rotated(0xcb1f7b5f, 15) == 0xbdafe58f
    ensures Rotated(0xbab63eca, 21) == 0xd95756c7
    ensures Rotated(0x19eb70e3, 6) == 0x7adc38c6
    ensures Rotated(0x4815104e, 10) == 0x54413920
    ensures Rotated(0x2c4c44ab, 15) == 0x22559626
    ensures Rotated(0xb7f2bdf4, 21) == 0xbe96fe57
    ensures Rotated(0x390e1e80, 6) == 0x4387a00e
    ensures Rotated(0x1da270a2, 10) == 0x89c28876
    ensures Rotated(0xd3288cb2, 15) == 0x46596994
    ensures Rotated(0x50be291c, 21) == 0x238a17c5
    ensures Rotated(0x2ef78c22, 6) == 0xbde3088b
    ensures Rotated(0x88cc50ab, 10) == 0x3142ae23
    ensures Rotated(0x5a4d046e, 15) == 0x82372d26
    ensures Rotated(0xeb66dedf, 21) == 0xdbfd6cdb
  {
  }

  lemma Start()
    ensures Reached(0, State(0x67452301, 0xefcdab89, 0x98badcfe, 0x10325476))
  {
  }

  lemma To4()
    ensures Reached(4, State(0xd6d117b4, 0x7ad956f2, 0x2f6fbd72, 0x344a8432))
  {
    hide Aux, Rotated, Reached;
    Start();
    Values1();
    Rotations1();
    Done(0, State(0x67452301, 0xefcdab89, 0x98badcfe, 0x10325476), 0x98badcfe, 0x57ce06d8, 0xe7036c2b, State(0x10325476, 0xd6d117b4, 0xefcdab89, 0x98badcfe));
    Done(1, State(0x10325476, 0xd6d117b4, 0xefcdab89, 0x98badcfe), 0xceebcbca, 0xc7e5d796, 0x5d796c7e, State(0x98badcfe, 0x344a8432, 0xd6d117b4, 0xefcdab89));
    Done(2, State(0x98badcfe, 0x344a8432, 0xd6d117b4, 0xefcdab89), 0xdfc52fb9, 0x9ca07d92, 0xfb253940, State(0xefcdab89, 0x2f6fbd72, 0x344a8432, 0xd6d117b4));
    Done(3, State(0xefcdab89, 0x2f6fbd72, 0x344a8432, 0xd6d117b4), 0xf4da86b6, 0xa666012d, 0x4b699980, State(0xd6d117b4, 0x7ad956f2, 0x2f6fbd72, 0x344a8432));
  }

  lemma To8()
    ensures Reached(8, State(0xc73741ef, 0x928d99f6, 0x207dc67b, 0x8bac3051))
  {
    hide Aux, Rotated, Reached;
    To4();
    Values1();
    Rotations1();
    Done(4, State(0xd6d117b4, 0x7ad956f2, 0x2f6fbd72, 0x344a8432), 0x2e4b9472, 0xfa98bbd5, 0x4c5deafd, State(0x344a8432, 0xc73741ef, 0x7ad956f2, 0x2f6fbd72));
    Done(5, State(0x344a8432, 0xc73741ef, 0x7ad956f2, 0x2f6fbd72), 0x6a59fcf2, 0xe62c474e, 0xc474ee62, State(0x2f6fbd72, 0x8bac3051, 0xc73741ef, 0x7ad956f2));
    Done(6, State(0x2f6fbd72, 0x8bac3051, 0xc73741ef, 0x7ad956f2), 0xf37546e3, 0xcb154a68, 0x94d1962a, State(0x7ad956f2, 0x207dc67b, 0x8bac3051, 0xc73741ef));
    Done(7, State(0x7ad956f2, 0x207dc67b, 0x8bac3051, 0xc73741ef), 0xc72e01d5, 0x3f4dedc8, 0x720fd37b, State(0xc73741ef, 0x928d99f6, 0x207dc67b, 0x8bac3051));
  }

  lemma To12()
    ensures Reached(12, State(0x854b3712, 0x5ed49596, 0x3020401c, 0x74e2f284))
  {
    hide Aux, Rotated, Reached;
    To8();
    Values1();
    Rotations1();
    Done(8, State(0xc73741ef, 0x928d99f6, 0x207dc67b, 0x8bac3051), 0x092da073, 0x39e57b3a, 0xf2bd9d1c, State(0x8bac3051, 0x854b3712, 0x928d99f6, 0x207dc67b));
    Done(9, State(0x8bac3051, 0x854b3712, 0x928d99f6, 0x207dc67b), 0xa03dd17b, 0xb72ef97b, 0xef97bb72, State(0x207dc67b, 0x74e2f284, 0x854b3712, 0x928d99f6));
    Done(10, State(0x207dc67b, 0x74e2f284, 0x854b3712, 0x928d99f6), 0x864f3b72, 0xa6cc5d9e, 0xbb3d4d98, State(0x928d99f6, 0x3020401c, 0x74e2f284, 0x854b3712));
    Done(11, State(0x928d99f6, 0x3020401c, 0x74e2f284, 0x854b3712), 0xb56b7706, 0xd155e8ba, 0x2eb4557a, State(0x854b3712, 0x5ed49596, 0x3020401c, 0x74e2f284));
  }

  lemma To16()
    ensures Reached(16, State(0xdda9b9a6, 0x72aff2e0, 0xe396856b, 0xa1051895))
  {
    hide Aux, Rotated, Reached;
    To12();
    Values1();
    Rotations1();
    Done(12, State(0x854b3712, 0x5ed49596, 0x3020401c, 0x74e2f284), 0x30226214, 0x20fdaa48, 0x7ed52410, State(0x74e2f284, 0xdda9b9a6, 0x5ed49596, 0x3020401c));
    Done(13, State(0x74e2f284, 0xdda9b9a6, 0x5ed49596, 0x3020401c), 0x7c80d19e, 0xeefc35b5, 0xc35b5eef, State(0x3020401c, 0xa1051895, 0xdda9b9a6, 0x5ed49596));
    Done(14, State(0x3020401c, 0xa1051895, 0xdda9b9a6, 0x5ed49596), 0xdfd19d86, 0xb66b2148, 0x42916cd6, State(0x5ed49596, 0xe396856b, 0xa1051895, 0xdda9b9a6));
    Done(15, State(0x5ed49596, 0xe396856b, 0xa1051895, 0xdda9b9a6), 0xbd2d3885, 0x65b5d63c, 0x8f196d75, State(0xdda9b9a6, 0x72aff2e0, 0xe396856b, 0xa1051895));
  }

  lemma To20()
    ensures Reached(20, State(0x3e9e9126, 0xb5b204e4, 0xe25e1652, 0x4a1d804e))
  {
    hide Aux, Rotated, Reached;
    To16();
    Values2();
    Rotations2();
    Done(16, State(0xdda9b9a6, 0x72aff2e0, 0xe396856b, 0xa1051895), 0x629795ea, 0x365f74f2, 0xcbee9e46, State(0xa1051895, 0x3e9e9126, 0x72aff2e0, 0xe396856b));
    Done(17, State(0xa1051895, 0x3e9e9126, 0x72aff2e0, 0xe396856b), 0x32bff3a2, 0x9405bf77, 0x0b7eef28, State(0xe396856b, 0x4a1d804e, 0x3e9e9126, 0x72aff2e0));
    Done(18, State(0xe396856b, 0x4a1d804e, 0x3e9e9126, 0x72aff2e0), 0x4e1d8146, 0x58126102, 0x98409604, State(0x72aff2e0, 0xe25e1652, 0x4a1d804e, 0x3e9e9126));
    Done(19, State(0x72aff2e0, 0xe25e1652, 0x4a1d804e, 0x3e9e9126), 0x621f104a, 0x3ee92d35, 0xd353ee92, State(0x3e9e9126, 0xb5b204e4, 0xe25e1652, 0x4a1d804e));
  }

  lemma To24()
    ensures Reached(24, State(0x59a8ffda, 0x47092c07, 0xabfc7920, 0x6d002f1e))
  {
    hide Aux, Rotated, Reached;
    To20();
    Values2();
    Rotations2();
    Done(20, State(0x3e9e9126, 0xb5b204e4, 0xe25e1652, 0x4a1d804e), 0xa0521654, 0xb51fb7d7, 0xa3f6faf6, State(0x4a1d804e, 0x59a8ffda, 0xb5b204e4, 0xe25e1652));
    Done(21, State(0x4a1d804e, 0x59a8ffda, 0xb5b204e4, 0xe25e1652), 0x55a816f6, 0xa209ab97, 0x13572f44, State(0xe25e1652, 0x6d002f1e, 0x59a8ffda, 0xb5b204e4));
    Done(22, State(0xe25e1652, 0x6d002f1e, 0x59a8ffda, 0xb5b204e4), 0x6d08ff1e, 0x2808fbf1, 0x3efc4a02, State(0xb5b204e4, 0xabfc7920, 0x6d002f1e, 0x59a8ffda));
    Done(23, State(0xb5b204e4, 0xabfc7920, 0x6d002f1e, 0x59a8ffda), 0x2da87904, 0xcb2e79b0, 0x9b0cb2e7, State(0x59a8ffda, 0x47092c07, 0xabfc7920, 0x6d002f1e));
  }

  lemma To28()
    ensures Reached(28, State(0xb7f268cf, 0x786acb8f, 0xfe1623b1, 0x09388eff))
  {
    hide Aux, Rotated, Reached;
    To24();
    Values2();
    Rotations2();
    Done(24, State(0x59a8ffda, 0x47092c07, 0xabfc7920, 0x6d002f1e), 0xc7fc7c26, 0x438749e6, 0x70e93cc8, State(0x6d002f1e, 0xb7f268cf, 0x47092c07, 0xabfc7920));
    Done(25, State(0x6d002f1e, 0xb7f268cf, 0x47092c07, 0xabfc7920), 0xe7f16c07, 0x1828a313, 0x51462630, State(0xabfc7920, 0x09388eff, 0xb7f268cf, 0x47092c07));
    Done(26, State(0xabfc7920, 0x09388eff, 0xb7f268cf, 0x47092c07), 0xb1fa4ccf, 0x52cbd376, 0xf4dd94b2, State(0x47092c07, 0xfe1623b1, 0x09388eff, 0xb7f268cf));
    Done(27, State(0x47092c07, 0xfe1623b1, 0x09388eff, 0xb7f268cf), 0xbe1aa6b1, 0x4a7de7a5, 0x7a54a7de, State(0xb7f268cf, 0x786acb8f, 0xfe1623b1, 0x09388eff));
  }

  lemma To32()
    ensures Reached(32, State(0x790a77fb, 0x726342d3, 0xa62884aa, 0x9f47e4f8))
  {
    hide Aux, Rotated, Reached;
    To28();
    Values2();
    Rotations2();
    Done(28, State(0xb7f268cf, 0x786acb8f, 0xfe1623b1, 0x09388eff), 0xfe2eab8f, 0x6004fd63, 0x009fac6c, State(0x09388eff, 0x790a77fb, 0x786acb8f, 0xfe1623b1));
    Done(29, State(0x09388eff, 0x790a77fb, 0x786acb8f, 0xfe1623b1), 0x786aebbf, 0x7e931eb6, 0x263d6cfd, State(0xfe1623b1, 0x9f47e4f8, 0x790a77fb, 0x786acb8f));
    Done(30, State(0xfe1623b1, 0x9f47e4f8, 0x790a77fb, 0x786acb8f), 0x1942f4f8, 0x7ec81b82, 0x06e09fb2, State(0x786acb8f, 0xa62884aa, 0x9f47e4f8, 0x790a77fb));
    Done(31, State(0x786acb8f, 0xa62884aa, 0x9f47e4f8, 0x790a77fb), 0xa64d84aa, 0xabe29cc3, 0xcc3abe29, State(0x790a77fb, 0x726342d3, 0xa62884aa, 0x9f47e4f8));
  }

  lemma To36()
    ensures Reached(36, State(0xb3707ebf, 0x3b0875c7, 0x8d212ff5, 0x60127b2e))
  {
    hide Aux, Rotated, Reached;
    To32();
    Values3();
    Rotations3();
    Done(32, State(0x790a77fb, 0x726342d3, 0xa62884aa, 0x9f47e4f8), 0x4b0c2281, 0xc410d3be, 0x410d3bec, State(0x9f47e4f8, 0xb3707ebf, 0x726342d3, 0xa62884aa));
    Done(33, State(0x9f47e4f8, 0xb3707ebf, 0x726342d3, 0xa62884aa), 0x673bb8c6, 0x8df5943f, 0xaca1fc6f, State(0xa62884aa, 0x60127b2e, 0xb3707ebf, 0x726342d3));
    Done(34, State(0xa62884aa, 0x60127b2e, 0xb3707ebf, 0x726342d3), 0xa1014742, 0xb4c72d0e, 0x2d0eb4c7, State(0x726342d3, 0x8d212ff5, 0x60127b2e, 0xb3707ebf));
    Done(35, State(0x726342d3, 0x8d212ff5, 0x60127b2e, 0xb3707ebf), 0x5e432a64, 0xce8ba55b, 0xade745d2, State(0xb3707ebf, 0x3b0875c7, 0x8d212ff5, 0x60127b2e));
  }

  lemma To40()
    ensures Reached(40, State(0x21b117b9, 0x5a2f5ea5, 0x3575227e, 0x6e7429d5))
  {
    hide Aux, Rotated, Reached;
    To36();
    Values3();
    Rotations3();
    Done(36, State(0xb3707ebf, 0x3b0875c7, 0x8d212ff5, 0x60127b2e), 0xd63b211c, 0x2e6a8a1f, 0xe6a8a1f2, State(0x60127b2e, 0x21b117b9, 0x3b0875c7, 0x8d212ff5));
    Done(37, State(0x60127b2e, 0x21b117b9, 0x3b0875c7, 0x8d212ff5), 0x97984d8b, 0x43899862, 0x4cc3121c, State(0x8d212ff5, 0x6e7429d5, 0x21b117b9, 0x3b0875c7));
    Done(38, State(0x8d212ff5, 0x6e7429d5, 0x21b117b9, 0x3b0875c7), 0x74cd4bab, 0xf8a9c700, 0xc700f8a9, State(0x3b0875c7, 0x3575227e, 0x6e7429d5, 0x21b117b9));
    Done(39, State(0x3b0875c7, 0x3575227e, 0x6e7429d5, 0x21b117b9), 0x7ab01c12, 0x74784e49, 0x24ba3c27, State(0x21b117b9, 0x5a2f5ea5, 0x3575227e, 0x6e7429d5));
  }

  lemma To44()
    ensures Reached(44, State(0x11de1779, 0x4c6124f4, 0x31c465ca, 0xfadcaa38))
  {
    hide Aux, Rotated, Reached;
    To40();
    Values3();
    Rotations3();
    Done(40, State(0x21b117b9, 0x5a2f5ea5, 0x3575227e, 0x6e7429d5), 0x012e550e, 0x4b7aeb8d, 0xb7aeb8d4, State(0x6e7429d5, 0x11de1779, 0x5a2f5ea5, 0x3575227e));
    Done(41, State(0x6e7429d5, 0x11de1779, 0x5a2f5ea5, 0x3575227e), 0x7e846ba2, 0x57fd1fd2, 0xe8fe92bf, State(0x3575227e, 0xfadcaa38, 0x11de1779, 0x5a2f5ea5));
    Done(42, State(0x3575227e, 0xfadcaa38, 0x11de1779, 0x5a2f5ea5), 0xb12de3e4, 0xbb9236e7, 0x36e7bb92, State(0x5a2f5ea5, 0x31c465ca, 0xfadcaa38, 0x11de1779));
    Done(43, State(0x5a2f5ea5, 0x31c465ca, 0xfadcaa38, 0x11de1779), 0xdac6d88b, 0x397e5435, 0x1a9cbf2a, State(0x11de1779, 0x4c6124f4, 0x31c465ca, 0xfadcaa38));
  }

  lemma To48()
    ensures Reached(48, State(0x7f2e507b, 0x7beb9700, 0x8fae6399, 0x99d9679d))
  {
    hide Aux, Rotated, Reached;
    To44();
    Values3();
    Rotations3();
    Done(44, State(0x11de1779, 0x4c6124f4, 0x31c465ca, 0xfadcaa38), 0x8779eb06, 0x732cd2b8, 0x32cd2b87, State(0xfadcaa38, 0x7f2e507b, 0x4c6124f4, 0x31c465ca));
    Done(45, State(0xfadcaa38, 0x7f2e507b, 0x4c6124f4, 0x31c465ca), 0x028b1145, 0xe4435562, 0x1aab1722, State(0x31c465ca, 0x99d9679d, 0x7f2e507b, 0x4c6124f4));
    Done(46, State(0x31c465ca, 0x99d9679d, 0x7f2e507b, 0x4c6124f4), 0xaa961312, 0xfbfcf5d4, 0xf5d4fbfc, State(0x4c6124f4, 0x8fae6399, 0x99d9679d, 0x7f2e507b));
    Done(47, State(0x4c6124f4, 0x8fae6399, 0x99d9679d, 0x7f2e507b), 0x6959547f, 0x7a66cfd8, 0xec3d3367, State(0x7f2e507b, 0x7beb9700, 0x8fae6399, 0x99d9679d));
  }

  lemma To52()
    ensures Reached(52, State(0x7b201df8, 0x8bf025c4, 0xb298cefd, 0xf4e8e96e))
  {
    hide Aux, Rotated, Reached;
    To48();
    Values4();
    Rotations4();
    Done(48, State(0x7f2e507b, 0x7beb9700, 0x8fae6399, 0x99d9679d), 0xf041fcfb, 0xe3fcd21b, 0xff3486f8, State(0x99d9679d, 0x7b201df8, 0x7beb9700, 0x8fae6399));
    Done(49, State(0x99d9679d, 0x7b201df8, 0x7beb9700, 0x8fae6399), 0x009a0afe, 0xdd9e7232, 0x79c8cb76, State(0x8fae6399, 0xf4e8e96e, 0x7b201df8, 0x7beb9700));
    Done(50, State(0x8fae6399, 0xf4e8e96e, 0x7b201df8, 0x7beb9700), 0x8fdcf407, 0xcb1f7b5f, 0xbdafe58f, State(0x7beb9700, 0xb298cefd, 0xf4e8e96e, 0x7b201df8));
    Done(51, State(0x7beb9700, 0xb298cefd, 0xf4e8e96e, 0x7b201df8), 0x42370791, 0xbab63eca, 0xd95756c7, State(0x7b201df8, 0x8bf025c4, 0xb298cefd, 0xf4e8e96e));
  }

  lemma To56()
    ensures Reached(56, State(0x06cc5e8a, 0x3bfa2c27, 0x7d632dd0, 0x5b0d97aa))
  {
    hide Aux, Rotated, Reached;
    To52();
    Values4();
    Rotations4();
    Done(52, State(0x7b201df8, 0x8bf025c4, 0xb298cefd, 0xf4e8e96e), 0x396ff928, 0x19eb70e3, 0x7adc38c6, State(0xf4e8e96e, 0x06cc5e8a, 0x8bf025c4, 0xb298cefd));
    Done(53, State(0xf4e8e96e, 0x06cc5e8a, 0x8bf025c4, 0xb298cefd), 0xc41f5a4e, 0x4815104e, 0x54413920, State(0xb298cefd, 0x5b0d97aa, 0x06cc5e8a, 0x8bf025c4));
    Done(54, State(0xb298cefd, 0x5b0d97aa, 0x06cc5e8a, 0x8bf025c4), 0x79c38131, 0x2c4c44ab, 0x22559626, State(0x8bf025c4, 0x7d632dd0, 0x5b0d97aa, 0x06cc5e8a));
    Done(55, State(0x8bf025c4, 0x7d632dd0, 0x5b0d97aa, 0x06cc5e8a), 0xa67e3a5f, 0xb7f2bdf4, 0xbe96fe57, State(0x06cc5e8a, 0x3bfa2c27, 0x7d632dd0, 0x5b0d97aa));
  }

  lemma To60()
    ensures Reached(60, State(0x7f81cc35, 0x7327d604, 0x4f9dbe3f, 0x094454ab))
  {
    hide Aux, Rotated, Reached;
    To56();
    Values4();
    Rotations4();
    Done(56, State(0x06cc5e8a, 0x3bfa2c27, 0x7d632dd0, 0x5b0d97aa), 0xc29941a7, 0x390e1e80, 0x4387a00e, State(0x5b0d97aa, 0x7f81cc35, 0x3bfa2c27, 0x7d632dd0));
    Done(57, State(0x5b0d97aa, 0x7f81cc35, 0x3bfa2c27, 0x7d632dd0), 0xc467f218, 0x1da270a2, 0x89c28876, State(0x7d632dd0, 0x094454ab, 0x7f81cc35, 0x3bfa2c27));
    Done(58, State(0x7d632dd0, 0x094454ab, 0x7f81cc35, 0x3bfa2c27), 0xb2c41bce, 0xd3288cb2, 0x46596994, State(0x3bfa2c27, 0x4f9dbe3f, 0x094454ab, 0x7f81cc35));
    Done(59, State(0x3bfa2c27, 0x4f9dbe3f, 0x094454ab, 0x7f81cc35), 0xc6bbeb54, 0x50be291c, 0x238a17c5, State(0x7f81cc35, 0x7327d604, 0x4f9dbe3f, 0x094454ab));
  }

  lemma To64()
    ensures Reached(64, State(0x310ade8f, 0xc08226b3, 0xe484b9d8, 0x624d8cb2))
  {
    hide Aux, Rotated, Reached;
    To60();
    Values4();
    Rotations4();
    Done(60, State(0x7f81cc35, 0x7327d604, 0x4f9dbe3f, 0x094454ab), 0xb822416b, 0x2ef78c22, 0xbde3088b, State(0x094454ab, 0x310ade8f, 0x7327d604, 0x4f9dbe3f));
    Done(61, State(0x094454ab, 0x310ade8f, 0x7327d604, 0x4f9dbe3f), 0xc24d09cb, 0x88cc50ab, 0x3142ae23, State(0x4f9dbe3f, 0x624d8cb2, 0x310ade8f, 0x7327d604));
    Done(62, State(0x4f9dbe3f, 0x624d8cb2, 0x310ade8f, 0x7327d604), 0xdfd77374, 0x5a4d046e, 0x82372d26, State(0x7327d604, 0xe484b9d8, 0x624d8cb2, 0x310ade8f));
    Done(63, State(0x7327d604, 0xe484b9d8, 0x624d8cb2, 0x310ade8f), 0x8cb8354a, 0xeb66dedf, 0xdbfd6cdb, State(0x310ade8f, 0xc08226b3, 0xe484b9d8, 0x624d8cb2));
  }

  /** The message with its padding and its length of 24 bits. */
  function Message(): (m: seq<Byte>)
    ensures |m| == 64
  {
    [0x61, 0x62, 0x63, 0x80] + Zeros(52) + [24, 0, 0, 0, 0, 0, 0, 0]
  }

  lemma PaddedAbc()
    ensures Padded([0x61, 0x62, 0x63]) == Message()
  {
    assert ZeroCount(3) == 52 && LengthBytes(3) == [24, 0, 0, 0, 0, 0, 0, 0];
  }

  lemma WordsAbc()
    ensures Words(Message()) == X
  {
    var m := Message();
    hide Words, WordOf;
    WordsAt(m, 0);
    WordsAt(m, 14);
    WordsAt(m, 15);
    assert m[0..4] == [0x61, 0x62, 0x63, 0x80] && m[56..60] == [24, 0, 0, 0] && m[60..64] == [0, 0, 0, 0];
    SomeWords();
    forall k | 1 <= k < 14
      ensures Words(m)[k] == 0
    {
      WordsAt(m, k);
      assert m[4 * k..4 * k + 4] == [0, 0, 0, 0];
    }
  }

  lemma WordsAt(m: seq<Byte>, k: nat)
    requires |m| == 64 && k < 16
    ensures Words(m)[k] == WordOf(m[4 * k..4 * k + 4])
  {
  }

  lemma SomeWords()
    ensures WordOf([0x61, 0x62, 0x63, 0x80]) == 0x80636261 && WordOf([24, 0, 0, 0]) == 24 && WordOf([0, 0, 0, 0]) == 0
  {
  }

  lemma BlockAbc()
    ensures Block(INITIAL, X) == State(0x98500190, 0xb04fd23c, 0x7d3f96d6, 0x727fe128)
  {
    hide Operations;
    To64();
  }

  /** MD5 ("abc") = 900150983cd24fb0d6963f7d28e17f72. */
  lemma Abc()
    ensures Md5([0x61, 0x62, 0x63]) ==
            [0x90, 0x01, 0x50, 0x98, 0x3c, 0xd2, 0x4f, 0xb0, 0xd6, 0x96, 0x3f, 0x7d, 0x28, 0xe1, 0x7f, 0x72]
  {
    PaddedAbc();
    WordsAbc();
    BlockAbc();
    hide Block, Padded, Words, Message;
    assert Message()[..0] == [] && Message()[0..] == Message();
    assert Absorb([]) == INITIAL;
    assert Absorb(Message()) == Block(INITIAL, X);
  }
}
