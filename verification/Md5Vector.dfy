/** The first message of the test suite of RFC 1321 (appendix A.5), step by step: the empty message
    has the digest d41d8cd98f00b204e9800998ecf8427e. That rests on every constant, on all that is
    done with the registers, on the order of the bytes and on the last addition. */
module Md5Vector {
  import opened Bytes
  import opened Md5

  // The words of the one block that the empty message is padded to.
  function EmptyWord(k: nat): bv32 { if k == 0 then 0x80 else 0 }

  ghost predicate IsEmptyBlock(block: seq<Byte>) {
    |block| == 64 && forall k: Index :: WordAt(block, k) == EmptyWord(k)
  }

  // The registers in the order in which they take their turns.
  function Registers(a: bv32, d: bv32, c: bv32, b: bv32): State { State(a, b, c, d) }

  // The registers after so many steps.
  ghost predicate After(block: seq<Byte>, n: nat, a: bv32, d: bv32, c: bv32, b: bv32) {
    IsEmptyBlock(block) && n <= 64 && Rounds(Initial(), block, n) == Registers(a, d, c, b)
  }

  // A step that makes e out of the four registers.
  lemma OneStep(block: seq<Byte>, n: nat, f: Auxiliary, i: Index, word: bv32, k: bv32, s: Shift,
      a: bv32, d: bv32, c: bv32, b: bv32, e: bv32)
    requires After(block, n, a, d, c, b) && n < 64 && Step(n) == MixStep(f, i, k, s)
    requires word == EmptyWord(i) && Mixed(f, word, k, s, a, b, c, d) == e
    ensures After(block, n + 1, d, c, b, e)
  {
    hide WordAt, Step, Mixed, EmptyWord;
    assert WordAt(block, i) == EmptyWord(i);
  }

  lemma Steps0()
    ensures Step(0) == MixStep(F1, 0, 0xd76aa478, 7) && Step(1) == MixStep(F1, 1, 0xe8c7b756, 12)
    ensures Step(2) == MixStep(F1, 2, 0x242070db, 17) && Step(3) == MixStep(F1, 3, 0xc1bdceee, 22)
    ensures Step(4) == MixStep(F1, 4, 0xf57c0faf, 7) && Step(5) == MixStep(F1, 5, 0x4787c62a, 12)
    ensures Step(6) == MixStep(F1, 6, 0xa8304613, 17) && Step(7) == MixStep(F1, 7, 0xfd469501, 22)
  {
  }

  lemma Steps8()
    ensures Step(8) == MixStep(F1, 8, 0x698098d8, 7) && Step(9) == MixStep(F1, 9, 0x8b44f7af, 12)
    ensures Step(10) == MixStep(F1, 10, 0xffff5bb1, 17) && Step(11) == MixStep(F1, 11, 0x895cd7be, 22)
    ensures Step(12) == MixStep(F1, 12, 0x6b901122, 7) && Step(13) == MixStep(F1, 13, 0xfd987193, 12)
    ensures Step(14) == MixStep(F1, 14, 0xa679438e, 17) && Step(15) == MixStep(F1, 15, 0x49b40821, 22)
  {
  }

  lemma Steps16()
    ensures Step(16) == MixStep(F2, 1, 0xf61e2562, 5) && Step(17) == MixStep(F2, 6, 0xc040b340, 9)
    ensures Step(18) == MixStep(F2, 11, 0x265e5a51, 14) && Step(19) == MixStep(F2, 0, 0xe9b6c7aa, 20)
    ensures Step(20) == MixStep(F2, 5, 0xd62f105d, 5) && Step(21) == MixStep(F2, 10, 0x02441453, 9)
    ensures Step(22) == MixStep(F2, 15, 0xd8a1e681, 14) && Step(23) == MixStep(F2, 4, 0xe7d3fbc8, 20)
  {
  }

  lemma Steps24()
    ensures Step(24) == MixStep(F2, 9, 0x21e1cde6, 5) && Step(25) == MixStep(F2, 14, 0xc33707d6, 9)
    ensures Step(26) == MixStep(F2, 3, 0xf4d50d87, 14) && Step(27) == MixStep(F2, 8, 0x455a14ed, 20)
    ensures Step(28) == MixStep(F2, 13, 0xa9e3e905, 5) && Step(29) == MixStep(F2, 2, 0xfcefa3f8, 9)
    ensures Step(30) == MixStep(F2, 7, 0x676f02d9, 14) && Step(31) == MixStep(F2, 12, 0x8d2a4c8a, 20)
  {
  }

  lemma Steps32()
    ensures Step(32) == MixStep(F3, 5, 0xfffa3942, 4) && Step(33) == MixStep(F3, 8, 0x8771f681, 11)
    ensures Step(34) == MixStep(F3, 11, 0x6d9d6122, 16) && Step(35) == MixStep(F3, 14, 0xfde5380c, 23)
    ensures Step(36) == MixStep(F3, 1, 0xa4beea44, 4) && Step(37) == MixStep(F3, 4, 0x4bdecfa9, 11)
    ensures Step(38) == MixStep(F3, 7, 0xf6bb4b60, 16) && Step(39) == MixStep(F3, 10, 0xbebfbc70, 23)
  {
  }

  lemma Steps40()
    ensures Step(40) == MixStep(F3, 13, 0x289b7ec6, 4) && Step(41) == MixStep(F3, 0, 0xeaa127fa, 11)
    ensures Step(42) == MixStep(F3, 3, 0xd4ef3085, 16) && Step(43) == MixStep(F3, 6, 0x04881d05, 23)
    ensures Step(44) == MixStep(F3, 9, 0xd9d4d039, 4) && Step(45) == MixStep(F3, 12, 0xe6db99e5, 11)
    ensures Step(46) == MixStep(F3, 15, 0x1fa27cf8, 16) && Step(47) == MixStep(F3, 2, 0xc4ac5665, 23)
  {
  }

  lemma Steps48()
    ensures Step(48) == MixStep(F4, 0, 0xf4292244, 6) && Step(49) == MixStep(F4, 7, 0x432aff97, 10)
    ensures Step(50) == MixStep(F4, 14, 0xab9423a7, 15) && Step(51) == MixStep(F4, 5, 0xfc93a039, 21)
    ensures Step(52) == MixStep(F4, 12, 0x655b59c3, 6) && Step(53) == MixStep(F4, 3, 0x8f0ccc92, 10)
    ensures Step(54) == MixStep(F4, 10, 0xffeff47d, 15) && Step(55) == MixStep(F4, 1, 0x85845dd1, 21)
  {
  }

  lemma Steps56()
    ensures Step(56) == MixStep(F4, 8, 0x6fa87e4f, 6) && Step(57) == MixStep(F4, 15, 0xfe2ce6e0, 10)
    ensures Step(58) == MixStep(F4, 6, 0xa3014314, 15) && Step(59) == MixStep(F4, 13, 0x4e0811a1, 21)
    ensures Step(60) == MixStep(F4, 4, 0xf7537e82, 6) && Step(61) == MixStep(F4, 11, 0xbd3af235, 10)
    ensures Step(62) == MixStep(F4, 2, 0x2ad7d2bb, 15) && Step(63) == MixStep(F4, 9, 0xeb86d391, 21)
  {
  }

  lemma From0(block: seq<Byte>)
    requires After(block, 0, 0x67452301, 0x10325476, 0x98badcfe, 0xefcdab89)
    ensures After(block, 8, 0x32033344, 0x2f35d494, 0xf5b158db, 0x9bc13ce9)
  {
    hide After, Step;
    Steps0();
    OneStep(block, 0, F1, 0, 0x80, 0xd76aa478, 7, 0x67452301, 0x10325476, 0x98badcfe, 0xefcdab89, 0xa5202774);
    OneStep(block, 1, F1, 1, 0, 0xe8c7b756, 12, 0x10325476, 0x98badcfe, 0xefcdab89, 0xa5202774, 0xf59592dd);
    OneStep(block, 2, F1, 2, 0, 0x242070db, 17, 0x98badcfe, 0xefcdab89, 0xa5202774, 0xf59592dd, 0xe7f06b23);
    OneStep(block, 3, F1, 3, 0, 0xc1bdceee, 22, 0xefcdab89, 0xa5202774, 0xf59592dd, 0xe7f06b23, 0x1b163203);
    OneStep(block, 4, F1, 4, 0, 0xf57c0faf, 7, 0xa5202774, 0xf59592dd, 0xe7f06b23, 0x1b163203, 0x32033344);
    OneStep(block, 5, F1, 5, 0, 0x4787c62a, 12, 0xf59592dd, 0xe7f06b23, 0x1b163203, 0x32033344, 0x2f35d494);
    OneStep(block, 6, F1, 6, 0, 0xa8304613, 17, 0xe7f06b23, 0x1b163203, 0x32033344, 0x2f35d494, 0xf5b158db);
    OneStep(block, 7, F1, 7, 0, 0xfd469501, 22, 0x1b163203, 0x32033344, 0x2f35d494, 0xf5b158db, 0x9bc13ce9);
  }

  lemma From8(block: seq<Byte>)
    requires After(block, 8, 0x32033344, 0x2f35d494, 0xf5b158db, 0x9bc13ce9)
    ensures After(block, 16, 0xf56c7cf1, 0x374943a7, 0x5aa53f75, 0xd6819c6a)
  {
    hide After, Step;
    Steps8();
    OneStep(block, 8, F1, 8, 0, 0x698098d8, 7, 0x32033344, 0x2f35d494, 0xf5b158db, 0x9bc13ce9, 0x3893b991);
    OneStep(block, 9, F1, 9, 0, 0x8b44f7af, 12, 0x2f35d494, 0xf5b158db, 0x9bc13ce9, 0x3893b991, 0xfce4a312);
    OneStep(block, 10, F1, 10, 0, 0xffff5bb1, 17, 0xf5b158db, 0x9bc13ce9, 0x3893b991, 0xfce4a312, 0xe1ef0576);
    OneStep(block, 11, F1, 11, 0, 0x895cd7be, 22, 0x9bc13ce9, 0x3893b991, 0xfce4a312, 0xe1ef0576, 0x70768a29);
    OneStep(block, 12, F1, 12, 0, 0x6b901122, 7, 0x3893b991, 0xfce4a312, 0xe1ef0576, 0x70768a29, 0xf56c7cf1);
    OneStep(block, 13, F1, 13, 0, 0xfd987193, 12, 0xfce4a312, 0xe1ef0576, 0x70768a29, 0xf56c7cf1, 0x374943a7);
    OneStep(block, 14, F1, 14, 0, 0xa679438e, 17, 0xe1ef0576, 0x70768a29, 0xf56c7cf1, 0x374943a7, 0x5aa53f75);
    OneStep(block, 15, F1, 15, 0, 0x49b40821, 22, 0x70768a29, 0xf56c7cf1, 0x374943a7, 0x5aa53f75, 0xd6819c6a);
  }

  lemma From16(block: seq<Byte>)
    requires After(block, 16, 0xf56c7cf1, 0x374943a7, 0x5aa53f75, 0xd6819c6a)
    ensures After(block, 24, 0x3d1e3e6c, 0x68b7b3e3, 0xeb41643e, 0xe422531a)
  {
    hide After, Step;
    Steps16();
    OneStep(block, 16, F2, 1, 0, 0xf61e2562, 5, 0xf56c7cf1, 0x374943a7, 0x5aa53f75, 0xd6819c6a, 0x1c7d7513);
    OneStep(block, 17, F2, 6, 0, 0xc040b340, 9, 0x374943a7, 0x5aa53f75, 0xd6819c6a, 0x1c7d7513, 0x7bd57a3a);
    OneStep(block, 18, F2, 11, 0, 0x265e5a51, 14, 0x5aa53f75, 0xd6819c6a, 0x1c7d7513, 0x7bd57a3a, 0xc095f13a);
    OneStep(block, 19, F2, 0, 0x80, 0xe9b6c7aa, 20, 0xd6819c6a, 0x1c7d7513, 0x7bd57a3a, 0xc095f13a, 0xbd782e17);
    OneStep(block, 20, F2, 5, 0, 0xd62f105d, 5, 0x1c7d7513, 0x7bd57a3a, 0xc095f13a, 0xbd782e17, 0x3d1e3e6c);
    OneStep(block, 21, F2, 10, 0, 0x02441453, 9, 0x7bd57a3a, 0xc095f13a, 0xbd782e17, 0x3d1e3e6c, 0x68b7b3e3);
    OneStep(block, 22, F2, 15, 0, 0xd8a1e681, 14, 0xc095f13a, 0xbd782e17, 0x3d1e3e6c, 0x68b7b3e3, 0xeb41643e);
    OneStep(block, 23, F2, 4, 0, 0xe7d3fbc8, 20, 0xbd782e17, 0x3d1e3e6c, 0x68b7b3e3, 0xeb41643e, 0xe422531a);
  }

  lemma From24(block: seq<Byte>)
    requires After(block, 24, 0x3d1e3e6c, 0x68b7b3e3, 0xeb41643e, 0xe422531a)
    ensures After(block, 32, 0x13707036, 0xae7813db, 0x1c31c384, 0xa2205f1f)
  {
    hide After, Step;
    Steps24();
    OneStep(block, 24, F2, 9, 0, 0x21e1cde6, 5, 0x3d1e3e6c, 0x68b7b3e3, 0xeb41643e, 0xe422531a, 0x306ec122);
    OneStep(block, 25, F2, 14, 0, 0xc33707d6, 9, 0x68b7b3e3, 0xeb41643e, 0xe422531a, 0x306ec122, 0xd28c77c2);
    OneStep(block, 26, F2, 3, 0, 0xf4d50d87, 14, 0xeb41643e, 0xe422531a, 0x306ec122, 0xd28c77c2, 0xa3c663da);
    OneStep(block, 27, F2, 8, 0, 0x455a14ed, 20, 0xe422531a, 0x306ec122, 0xd28c77c2, 0xa3c663da, 0xa0572807);
    OneStep(block, 28, F2, 13, 0, 0xa9e3e905, 5, 0x306ec122, 0xd28c77c2, 0xa3c663da, 0xa0572807, 0x13707036);
    OneStep(block, 29, F2, 2, 0, 0xfcefa3f8, 9, 0xd28c77c2, 0xa3c663da, 0xa0572807, 0x13707036, 0xae7813db);
    OneStep(block, 30, F2, 7, 0, 0x676f02d9, 14, 0xa3c663da, 0xa0572807, 0x13707036, 0xae7813db, 0x1c31c384);
    OneStep(block, 31, F2, 12, 0, 0x8d2a4c8a, 20, 0xa0572807, 0x13707036, 0xae7813db, 0x1c31c384, 0xa2205f1f);
  }

  lemma From32(block: seq<Byte>)
    requires After(block, 32, 0x13707036, 0xae7813db, 0x1c31c384, 0xa2205f1f)
    ensures After(block, 40, 0x5f7a9b2e, 0xabc34e16, 0x91ca4cb7, 0xc5dc8c15)
  {
    hide After, Step;
    Steps32();
    OneStep(block, 32, F3, 5, 0, 0xfffa3942, 4, 0x13707036, 0xae7813db, 0x1c31c384, 0xa2205f1f, 0xdf63eaa1);
    OneStep(block, 33, F3, 8, 0, 0x8771f681, 11, 0xae7813db, 0x1c31c384, 0xa2205f1f, 0xdf63eaa1, 0xc3689f5b);
    OneStep(block, 34, F3, 11, 0, 0x6d9d6122, 16, 0x1c31c384, 0xa2205f1f, 0xdf63eaa1, 0xc3689f5b, 0x12f3e755);
    OneStep(block, 35, F3, 14, 0, 0xfde5380c, 23, 0xa2205f1f, 0xdf63eaa1, 0xc3689f5b, 0x12f3e755, 0x004b6669);
    OneStep(block, 36, F3, 1, 0, 0xa4beea44, 4, 0xdf63eaa1, 0xc3689f5b, 0x12f3e755, 0x004b6669, 0x5f7a9b2e);
    OneStep(block, 37, F3, 4, 0, 0x4bdecfa9, 11, 0xc3689f5b, 0x12f3e755, 0x004b6669, 0x5f7a9b2e, 0xabc34e16);
    OneStep(block, 38, F3, 7, 0, 0xf6bb4b60, 16, 0x12f3e755, 0x004b6669, 0x5f7a9b2e, 0xabc34e16, 0x91ca4cb7);
    OneStep(block, 39, F3, 10, 0, 0xbebfbc70, 23, 0x004b6669, 0x5f7a9b2e, 0xabc34e16, 0x91ca4cb7, 0xc5dc8c15);
  }

  lemma From40(block: seq<Byte>)
    requires After(block, 40, 0x5f7a9b2e, 0xabc34e16, 0x91ca4cb7, 0xc5dc8c15)
    ensures After(block, 48, 0x3f55edfd, 0x22a31f54, 0x68d84ea2, 0xca7d2dbd)
  {
    hide After, Step;
    Steps40();
    OneStep(block, 40, F3, 13, 0, 0x289b7ec6, 4, 0x5f7a9b2e, 0xabc34e16, 0x91ca4cb7, 0xc5dc8c15, 0x4497169d);
    OneStep(block, 41, F3, 0, 0x80, 0xeaa127fa, 11, 0xabc34e16, 0x91ca4cb7, 0xc5dc8c15, 0x4497169d, 0x76fd93d4);
    OneStep(block, 42, F3, 3, 0, 0xd4ef3085, 16, 0x91ca4cb7, 0xc5dc8c15, 0x4497169d, 0x76fd93d4, 0xfd95f243);
    OneStep(block, 43, F3, 6, 0, 0x04881d05, 23, 0xc5dc8c15, 0x4497169d, 0x76fd93d4, 0xfd95f243, 0x0fe32453);
    OneStep(block, 44, F3, 9, 0, 0xd9d4d039, 4, 0x4497169d, 0x76fd93d4, 0xfd95f243, 0x0fe32453, 0x3f55edfd);
    OneStep(block, 45, F3, 12, 0, 0xe6db99e5, 11, 0x76fd93d4, 0xfd95f243, 0x0fe32453, 0x3f55edfd, 0x22a31f54);
    OneStep(block, 46, F3, 15, 0, 0x1fa27cf8, 16, 0xfd95f243, 0x0fe32453, 0x3f55edfd, 0x22a31f54, 0x68d84ea2);
    OneStep(block, 47, F3, 2, 0, 0xc4ac5665, 23, 0x0fe32453, 0x3f55edfd, 0x22a31f54, 0x68d84ea2, 0xca7d2dbd);
  }

  lemma From48(block: seq<Byte>)
    requires After(block, 48, 0x3f55edfd, 0x22a31f54, 0x68d84ea2, 0xca7d2dbd)
    ensures After(block, 56, 0x5625a114, 0x3450f42b, 0x392ad0d0, 0x1e77fa61)
  {
    hide After, Step;
    Steps48();
    OneStep(block, 48, F4, 0, 0x80, 0xf4292244, 6, 0x3f55edfd, 0x22a31f54, 0x68d84ea2, 0xca7d2dbd, 0x93aa2577);
    OneStep(block, 49, F4, 7, 0, 0x432aff97, 10, 0x22a31f54, 0x68d84ea2, 0xca7d2dbd, 0x93aa2577, 0x1688dc85);
    OneStep(block, 50, F4, 14, 0, 0xab9423a7, 15, 0x68d84ea2, 0xca7d2dbd, 0x93aa2577, 0x1688dc85, 0xcd85b8cb);
    OneStep(block, 51, F4, 5, 0, 0xfc93a039, 21, 0xca7d2dbd, 0x93aa2577, 0x1688dc85, 0xcd85b8cb, 0x561e0689);
    OneStep(block, 52, F4, 12, 0, 0x655b59c3, 6, 0x93aa2577, 0x1688dc85, 0xcd85b8cb, 0x561e0689, 0x5625a114);
    OneStep(block, 53, F4, 3, 0, 0x8f0ccc92, 10, 0x1688dc85, 0xcd85b8cb, 0x561e0689, 0x5625a114, 0x3450f42b);
    OneStep(block, 54, F4, 10, 0, 0xffeff47d, 15, 0xcd85b8cb, 0x561e0689, 0x5625a114, 0x3450f42b, 0x392ad0d0);
    OneStep(block, 55, F4, 1, 0, 0x85845dd1, 21, 0x561e0689, 0x5625a114, 0x3450f42b, 0x392ad0d0, 0x1e77fa61);
  }

  lemma From56(block: seq<Byte>)
    requires After(block, 56, 0x5625a114, 0x3450f42b, 0x392ad0d0, 0x1e77fa61)
    ensures After(block, 64, 0x7246fad3, 0x6e10a476, 0xff4ea3eb, 0x14e45506)
  {
    hide After, Step;
    Steps56();
    OneStep(block, 56, F4, 8, 0, 0x6fa87e4f, 6, 0x5625a114, 0x3450f42b, 0x392ad0d0, 0x1e77fa61, 0x474a9c8c);
    OneStep(block, 57, F4, 15, 0, 0xfe2ce6e0, 10, 0x3450f42b, 0x392ad0d0, 0x1e77fa61, 0x474a9c8c, 0xdfce00bc);
    OneStep(block, 58, F4, 6, 0, 0xa3014314, 15, 0x392ad0d0, 0x1e77fa61, 0x474a9c8c, 0xdfce00bc, 0x36594b14);
    OneStep(block, 59, F4, 13, 0, 0x4e0811a1, 21, 0x1e77fa61, 0x474a9c8c, 0xdfce00bc, 0x36594b14, 0x30130182);
    OneStep(block, 60, F4, 4, 0, 0xf7537e82, 6, 0x474a9c8c, 0xdfce00bc, 0x36594b14, 0x30130182, 0x7246fad3);
    OneStep(block, 61, F4, 11, 0, 0xbd3af235, 10, 0xdfce00bc, 0x36594b14, 0x30130182, 0x7246fad3, 0x6e10a476);
    OneStep(block, 62, F4, 2, 0, 0x2ad7d2bb, 15, 0x36594b14, 0x30130182, 0x7246fad3, 0x6e10a476, 0xff4ea3eb);
    OneStep(block, 63, F4, 9, 0, 0xeb86d391, 21, 0x30130182, 0x7246fad3, 0x6e10a476, 0xff4ea3eb, 0x14e45506);
  }

  lemma TwoWords()
    ensures WordOf([0x80, 0, 0, 0]) == 0x80 && WordOf([0, 0, 0, 0]) == 0
  {
  }

  lemma {:induction false} NoBits(n: nat, k: nat)
    requires k < n
    ensures LittleEndian(0, n)[k] == 0
    decreases n
  {
    if k > 0 { NoBits(n - 1, k - 1); }
  }

  lemma EmptyBlock()
    ensures |Padded([])| == 64 && IsEmptyBlock(Padded([]))
  {
    hide WordOf, LittleEndian;
    var p := Padded([]);
    assert Gap(0) == 55 && p == [0x80] + Zeros(55) + LengthField(0);
    forall k | 1 <= k < 64
      ensures p[k] == 0
    {
      if k >= 56 { NoBits(8, k - 56); }
    }
    TwoWords();
    forall k: Index
      ensures WordAt(p, k) == EmptyWord(k)
    {
      assert p[4 * k..4 * k + 4] == if k == 0 then [0x80, 0, 0, 0] else [0, 0, 0, 0];
    }
  }

  lemma EmptyState(block: seq<Byte>)
    requires IsEmptyBlock(block)
    ensures Rounds(Initial(), block, 64) == Registers(0x7246fad3, 0x6e10a476, 0xff4ea3eb, 0x14e45506)
  {
    hide IsEmptyBlock;
    From0(block);
    From8(block);
    From16(block);
    From24(block);
    From32(block);
    From40(block);
    From48(block);
    From56(block);
  }

  lemma OneBlock(f: Compression, s: State, block: Block)
    ensures Fold(f, s, block) == f(s, block)
  {
    assert block[..64] == block && block[64..] == [];
  }

  lemma EmptySum(block: Block)
    requires Rounds(Initial(), block, 64) == Registers(0x7246fad3, 0x6e10a476, 0xff4ea3eb, 0x14e45506)
    ensures Transform(Initial(), block) == State(0xd98c1dd4, 0x04b2008f, 0x980980e9, 0x7e42f8ec)
  {
    hide Rounds;
  }

  lemma EmptyDigest()
    ensures Digest([]) == [0xd4, 0x1d, 0x8c, 0xd9, 0x8f, 0x00, 0xb2, 0x04,
                           0xe9, 0x80, 0x09, 0x98, 0xec, 0xf8, 0x42, 0x7e]
  {
    hide Padded, Rounds, LittleEndian, IsEmptyBlock, Fold, Transform;
    var block := Padded([]);
    EmptyBlock();
    EmptyState(block);
    EmptySum(block);
    OneBlock(Transform, Initial(), block);
    FourBytes(0xd98c1dd4, 0xd4, 0x1d, 0x8c, 0xd9);
    FourBytes(0x04b2008f, 0x8f, 0x00, 0xb2, 0x04);
    FourBytes(0x980980e9, 0xe9, 0x80, 0x09, 0x98);
    FourBytes(0x7e42f8ec, 0xec, 0xf8, 0x42, 0x7e);
  }
}
