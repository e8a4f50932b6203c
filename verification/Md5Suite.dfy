/** The digest of the empty message (RFC 1321, appendix A.5). */
module Md5Suite {
  import opened Bytes
  import opened Md5Block
  import opened Md5

  /** The block that the empty message is padded to. */
  predicate IsEmptyBlock(x: seq<bv32>) {
    && |x| == 16 && x[0] == 0x80 && x[1] == x[2] == x[3] == x[4] == x[5] == x[6] == x[7] == x[8] == 0
    && x[9] == x[10] == x[11] == x[12] == x[13] == x[14] == x[15] == 0
  }

  lemma Empty1(x: seq<bv32>)
    requires IsEmptyBlock(x)
    ensures Steps(0, Registers(0x67452301, 0xefcdab89, 0x98badcfe, 0x10325476), x)
         == Steps(4, Registers(0xa5202774, 0x1b163203, 0xe7f06b23, 0xf59592dd), x)
  {
    hide Steps, Turn, Sine, Pick, Shift, Mix;
    Sines1();
    Places1();
    OneFF(0, Registers(0x67452301, 0xefcdab89, 0x98badcfe, 0x10325476), x, 0x80, 7, 0xd76aa478, 0xa5202774);
    OneFF(1, Registers(0x10325476, 0xa5202774, 0xefcdab89, 0x98badcfe), x, 0, 12, 0xe8c7b756, 0xf59592dd);
    OneFF(2, Registers(0x98badcfe, 0xf59592dd, 0xa5202774, 0xefcdab89), x, 0, 17, 0x242070db, 0xe7f06b23);
    OneFF(3, Registers(0xefcdab89, 0xe7f06b23, 0xf59592dd, 0xa5202774), x, 0, 22, 0xc1bdceee, 0x1b163203);
  }

  lemma Empty2(x: seq<bv32>)
    requires IsEmptyBlock(x)
    ensures Steps(4, Registers(0xa5202774, 0x1b163203, 0xe7f06b23, 0xf59592dd), x)
         == Steps(8, Registers(0x32033344, 0x9bc13ce9, 0xf5b158db, 0x2f35d494), x)
  {
    hide Steps, Turn, Sine, Pick, Shift, Mix;
    Sines1();
    Places1();
    OneFF(4, Registers(0xa5202774, 0x1b163203, 0xe7f06b23, 0xf59592dd), x, 0, 7, 0xf57c0faf, 0x32033344);
    OneFF(5, Registers(0xf59592dd, 0x32033344, 0x1b163203, 0xe7f06b23), x, 0, 12, 0x4787c62a, 0x2f35d494);
    OneFF(6, Registers(0xe7f06b23, 0x2f35d494, 0x32033344, 0x1b163203), x, 0, 17, 0xa8304613, 0xf5b158db);
    OneFF(7, Registers(0x1b163203, 0xf5b158db, 0x2f35d494, 0x32033344), x, 0, 22, 0xfd469501, 0x9bc13ce9);
  }

  lemma Empty3(x: seq<bv32>)
    requires IsEmptyBlock(x)
    ensures Steps(8, Registers(0x32033344, 0x9bc13ce9, 0xf5b158db, 0x2f35d494), x)
         == Steps(12, Registers(0x3893b991, 0x70768a29, 0xe1ef0576, 0xfce4a312), x)
  {
    hide Steps, Turn, Sine, Pick, Shift, Mix;
    Sines1();
    Places1();
    OneFF(8, Registers(0x32033344, 0x9bc13ce9, 0xf5b158db, 0x2f35d494), x, 0, 7, 0x698098d8, 0x3893b991);
    OneFF(9, Registers(0x2f35d494, 0x3893b991, 0x9bc13ce9, 0xf5b158db), x, 0, 12, 0x8b44f7af, 0xfce4a312);
    OneFF(10, Registers(0xf5b158db, 0xfce4a312, 0x3893b991, 0x9bc13ce9), x, 0, 17, 0xffff5bb1, 0xe1ef0576);
    OneFF(11, Registers(0x9bc13ce9, 0xe1ef0576, 0xfce4a312, 0x3893b991), x, 0, 22, 0x895cd7be, 0x70768a29);
  }

  lemma Empty4(x: seq<bv32>)
    requires IsEmptyBlock(x)
    ensures Steps(12, Registers(0x3893b991, 0x70768a29, 0xe1ef0576, 0xfce4a312), x)
         == Steps(16, Registers(0xf56c7cf1, 0xd6819c6a, 0x5aa53f75, 0x374943a7), x)
  {
    hide Steps, Turn, Sine, Pick, Shift, Mix;
    Sines1();
    Places1();
    OneFF(12, Registers(0x3893b991, 0x70768a29, 0xe1ef0576, 0xfce4a312), x, 0, 7, 0x6b901122, 0xf56c7cf1);
    OneFF(13, Registers(0xfce4a312, 0xf56c7cf1, 0x70768a29, 0xe1ef0576), x, 0, 12, 0xfd987193, 0x374943a7);
    OneFF(14, Registers(0xe1ef0576, 0x374943a7, 0xf56c7cf1, 0x70768a29), x, 0, 17, 0xa679438e, 0x5aa53f75);
    OneFF(15, Registers(0x70768a29, 0x5aa53f75, 0x374943a7, 0xf56c7cf1), x, 0, 22, 0x49b40821, 0xd6819c6a);
  }

  lemma Empty5(x: seq<bv32>)
    requires IsEmptyBlock(x)
    ensures Steps(16, Registers(0xf56c7cf1, 0xd6819c6a, 0x5aa53f75, 0x374943a7), x)
         == Steps(20, Registers(0x1c7d7513, 0xbd782e17, 0xc095f13a, 0x7bd57a3a), x)
  {
    hide Steps, Turn, Sine, Pick, Shift, Mix;
    Sines2();
    Places2();
    OneGG(16, Registers(0xf56c7cf1, 0xd6819c6a, 0x5aa53f75, 0x374943a7), x, 0, 5, 0xf61e2562, 0x1c7d7513);
    OneGG(17, Registers(0x374943a7, 0x1c7d7513, 0xd6819c6a, 0x5aa53f75), x, 0, 9, 0xc040b340, 0x7bd57a3a);
    OneGG(18, Registers(0x5aa53f75, 0x7bd57a3a, 0x1c7d7513, 0xd6819c6a), x, 0, 14, 0x265e5a51, 0xc095f13a);
    OneGG(19, Registers(0xd6819c6a, 0xc095f13a, 0x7bd57a3a, 0x1c7d7513), x, 0x80, 20, 0xe9b6c7aa, 0xbd782e17);
  }

  lemma Empty6(x: seq<bv32>)
    requires IsEmptyBlock(x)
    ensures Steps(20, Registers(0x1c7d7513, 0xbd782e17, 0xc095f13a, 0x7bd57a3a), x)
         == Steps(24, Registers(0x3d1e3e6c, 0xe422531a, 0xeb41643e, 0x68b7b3e3), x)
  {
    hide Steps, Turn, Sine, Pick, Shift, Mix;
    Sines2();
    Places2();
    OneGG(20, Registers(0x1c7d7513, 0xbd782e17, 0xc095f13a, 0x7bd57a3a), x, 0, 5, 0xd62f105d, 0x3d1e3e6c);
    OneGG(21, Registers(0x7bd57a3a, 0x3d1e3e6c, 0xbd782e17, 0xc095f13a), x, 0, 9, 0x02441453, 0x68b7b3e3);
    OneGG(22, Registers(0xc095f13a, 0x68b7b3e3, 0x3d1e3e6c, 0xbd782e17), x, 0, 14, 0xd8a1e681, 0xeb41643e);
    OneGG(23, Registers(0xbd782e17, 0xeb41643e, 0x68b7b3e3, 0x3d1e3e6c), x, 0, 20, 0xe7d3fbc8, 0xe422531a);
  }

  lemma Empty7(x: seq<bv32>)
    requires IsEmptyBlock(x)
    ensures Steps(24, Registers(0x3d1e3e6c, 0xe422531a, 0xeb41643e, 0x68b7b3e3), x)
         == Steps(28, Registers(0x306ec122, 0xa0572807, 0xa3c663da, 0xd28c77c2), x)
  {
    hide Steps, Turn, Sine, Pick, Shift, Mix;
    Sines2();
    Places2();
    OneGG(24, Registers(0x3d1e3e6c, 0xe422531a, 0xeb41643e, 0x68b7b3e3), x, 0, 5, 0x21e1cde6, 0x306ec122);
    OneGG(25, Registers(0x68b7b3e3, 0x306ec122, 0xe422531a, 0xeb41643e), x, 0, 9, 0xc33707d6, 0xd28c77c2);
    OneGG(26, Registers(0xeb41643e, 0xd28c77c2, 0x306ec122, 0xe422531a), x, 0, 14, 0xf4d50d87, 0xa3c663da);
    OneGG(27, Registers(0xe422531a, 0xa3c663da, 0xd28c77c2, 0x306ec122), x, 0, 20, 0x455a14ed, 0xa0572807);
  }

  lemma Empty8(x: seq<bv32>)
    requires IsEmptyBlock(x)
    ensures Steps(28, Registers(0x306ec122, 0xa0572807, 0xa3c663da, 0xd28c77c2), x)
         == Steps(32, Registers(0x13707036, 0xa2205f1f, 0x1c31c384, 0xae7813db), x)
  {
    hide Steps, Turn, Sine, Pick, Shift, Mix;
    Sines2();
    Places2();
    OneGG(28, Registers(0x306ec122, 0xa0572807, 0xa3c663da, 0xd28c77c2), x, 0, 5, 0xa9e3e905, 0x13707036);
    OneGG(29, Registers(0xd28c77c2, 0x13707036, 0xa0572807, 0xa3c663da), x, 0, 9, 0xfcefa3f8, 0xae7813db);
    OneGG(30, Registers(0xa3c663da, 0xae7813db, 0x13707036, 0xa0572807), x, 0, 14, 0x676f02d9, 0x1c31c384);
    OneGG(31, Registers(0xa0572807, 0x1c31c384, 0xae7813db, 0x13707036), x, 0, 20, 0x8d2a4c8a, 0xa2205f1f);
  }

  lemma Empty9(x: seq<bv32>)
    requires IsEmptyBlock(x)
    ensures Steps(32, Registers(0x13707036, 0xa2205f1f, 0x1c31c384, 0xae7813db), x)
         == Steps(36, Registers(0xdf63eaa1, 0x004b6669, 0x12f3e755, 0xc3689f5b), x)
  {
    hide Steps, Turn, Sine, Pick, Shift, Mix;
    Sines3();
    Places3();
    OneHH(32, Registers(0x13707036, 0xa2205f1f, 0x1c31c384, 0xae7813db), x, 0, 4, 0xfffa3942, 0xdf63eaa1);
    OneHH(33, Registers(0xae7813db, 0xdf63eaa1, 0xa2205f1f, 0x1c31c384), x, 0, 11, 0x8771f681, 0xc3689f5b);
    OneHH(34, Registers(0x1c31c384, 0xc3689f5b, 0xdf63eaa1, 0xa2205f1f), x, 0, 16, 0x6d9d6122, 0x12f3e755);
    OneHH(35, Registers(0xa2205f1f, 0x12f3e755, 0xc3689f5b, 0xdf63eaa1), x, 0, 23, 0xfde5380c, 0x004b6669);
  }

  lemma Empty10(x: seq<bv32>)
    requires IsEmptyBlock(x)
    ensures Steps(36, Registers(0xdf63eaa1, 0x004b6669, 0x12f3e755, 0xc3689f5b), x)
         == Steps(40, Registers(0x5f7a9b2e, 0xc5dc8c15, 0x91ca4cb7, 0xabc34e16), x)
  {
    hide Steps, Turn, Sine, Pick, Shift, Mix;
    Sines3();
    Places3();
    OneHH(36, Registers(0xdf63eaa1, 0x004b6669, 0x12f3e755, 0xc3689f5b), x, 0, 4, 0xa4beea44, 0x5f7a9b2e);
    OneHH(37, Registers(0xc3689f5b, 0x5f7a9b2e, 0x004b6669, 0x12f3e755), x, 0, 11, 0x4bdecfa9, 0xabc34e16);
    OneHH(38, Registers(0x12f3e755, 0xabc34e16, 0x5f7a9b2e, 0x004b6669), x, 0, 16, 0xf6bb4b60, 0x91ca4cb7);
    OneHH(39, Registers(0x004b6669, 0x91ca4cb7, 0xabc34e16, 0x5f7a9b2e), x, 0, 23, 0xbebfbc70, 0xc5dc8c15);
  }

  lemma Empty11(x: seq<bv32>)
    requires IsEmptyBlock(x)
    ensures Steps(40, Registers(0x5f7a9b2e, 0xc5dc8c15, 0x91ca4cb7, 0xabc34e16), x)
         == Steps(44, Registers(0x4497169d, 0x0fe32453, 0xfd95f243, 0x76fd93d4), x)
  {
    hide Steps, Turn, Sine, Pick, Shift, Mix;
    Sines3();
    Places3();
    OneHH(40, Registers(0x5f7a9b2e, 0xc5dc8c15, 0x91ca4cb7, 0xabc34e16), x, 0, 4, 0x289b7ec6, 0x4497169d);
    OneHH(41, Registers(0xabc34e16, 0x4497169d, 0xc5dc8c15, 0x91ca4cb7), x, 0x80, 11, 0xeaa127fa, 0x76fd93d4);
    OneHH(42, Registers(0x91ca4cb7, 0x76fd93d4, 0x4497169d, 0xc5dc8c15), x, 0, 16, 0xd4ef3085, 0xfd95f243);
    OneHH(43, Registers(0xc5dc8c15, 0xfd95f243, 0x76fd93d4, 0x4497169d), x, 0, 23, 0x04881d05, 0x0fe32453);
  }

  lemma Empty12(x: seq<bv32>)
    requires IsEmptyBlock(x)
    ensures Steps(44, Registers(0x4497169d, 0x0fe32453, 0xfd95f243, 0x76fd93d4), x)
         == Steps(48, Registers(0x3f55edfd, 0xca7d2dbd, 0x68d84ea2, 0x22a31f54), x)
  {
    hide Steps, Turn, Sine, Pick, Shift, Mix;
    Sines3();
    Places3();
    OneHH(44, Registers(0x4497169d, 0x0fe32453, 0xfd95f243, 0x76fd93d4), x, 0, 4, 0xd9d4d039, 0x3f55edfd);
    OneHH(45, Registers(0x76fd93d4, 0x3f55edfd, 0x0fe32453, 0xfd95f243), x, 0, 11, 0xe6db99e5, 0x22a31f54);
    OneHH(46, Registers(0xfd95f243, 0x22a31f54, 0x3f55edfd, 0x0fe32453), x, 0, 16, 0x1fa27cf8, 0x68d84ea2);
    OneHH(47, Registers(0x0fe32453, 0x68d84ea2, 0x22a31f54, 0x3f55edfd), x, 0, 23, 0xc4ac5665, 0xca7d2dbd);
  }

  lemma Empty13(x: seq<bv32>)
    requires IsEmptyBlock(x)
    ensures Steps(48, Registers(0x3f55edfd, 0xca7d2dbd, 0x68d84ea2, 0x22a31f54), x)
         == Steps(52, Registers(0x93aa2577, 0x561e0689, 0xcd85b8cb, 0x1688dc85), x)
  {
    hide Steps, Turn, Sine, Pick, Shift, Mix;
    Sines4();
    Places4();
    OneII(48, Registers(0x3f55edfd, 0xca7d2dbd, 0x68d84ea2, 0x22a31f54), x, 0x80, 6, 0xf4292244, 0x93aa2577);
    OneII(49, Registers(0x22a31f54, 0x93aa2577, 0xca7d2dbd, 0x68d84ea2), x, 0, 10, 0x432aff97, 0x1688dc85);
    OneII(50, Registers(0x68d84ea2, 0x1688dc85, 0x93aa2577, 0xca7d2dbd), x, 0, 15, 0xab9423a7, 0xcd85b8cb);
    OneII(51, Registers(0xca7d2dbd, 0xcd85b8cb, 0x1688dc85, 0x93aa2577), x, 0, 21, 0xfc93a039, 0x561e0689);
  }

  lemma Empty14(x: seq<bv32>)
    requires IsEmptyBlock(x)
    ensures Steps(52, Registers(0x93aa2577, 0x561e0689, 0xcd85b8cb, 0x1688dc85), x)
         == Steps(56, Registers(0x5625a114, 0x1e77fa61, 0x392ad0d0, 0x3450f42b), x)
  {
    hide Steps, Turn, Sine, Pick, Shift, Mix;
    Sines4();
    Places4();
    OneII(52, Registers(0x93aa2577, 0x561e0689, 0xcd85b8cb, 0x1688dc85), x, 0, 6, 0x655b59c3, 0x5625a114);
    OneII(53, Registers(0x1688dc85, 0x5625a114, 0x561e0689, 0xcd85b8cb), x, 0, 10, 0x8f0ccc92, 0x3450f42b);
    OneII(54, Registers(0xcd85b8cb, 0x3450f42b, 0x5625a114, 0x561e0689), x, 0, 15, 0xffeff47d, 0x392ad0d0);
    OneII(55, Registers(0x561e0689, 0x392ad0d0, 0x3450f42b, 0x5625a114), x, 0, 21, 0x85845dd1, 0x1e77fa61);
  }

  lemma Empty15(x: seq<bv32>)
    requires IsEmptyBlock(x)
    ensures Steps(56, Registers(0x5625a114, 0x1e77fa61, 0x392ad0d0, 0x3450f42b), x)
         == Steps(60, Registers(0x474a9c8c, 0x30130182, 0x36594b14, 0xdfce00bc), x)
  {
    hide Steps, Turn, Sine, Pick, Shift, Mix;
    Sines4();
    Places4();
    OneII(56, Registers(0x5625a114, 0x1e77fa61, 0x392ad0d0, 0x3450f42b), x, 0, 6, 0x6fa87e4f, 0x474a9c8c);
    OneII(57, Registers(0x3450f42b, 0x474a9c8c, 0x1e77fa61, 0x392ad0d0), x, 0, 10, 0xfe2ce6e0, 0xdfce00bc);
    OneII(58, Registers(0x392ad0d0, 0xdfce00bc, 0x474a9c8c, 0x1e77fa61), x, 0, 15, 0xa3014314, 0x36594b14);
    OneII(59, Registers(0x1e77fa61, 0x36594b14, 0xdfce00bc, 0x474a9c8c), x, 0, 21, 0x4e0811a1, 0x30130182);
  }

  lemma Empty16(x: seq<bv32>)
    requires IsEmptyBlock(x)
    ensures Steps(60, Registers(0x474a9c8c, 0x30130182, 0x36594b14, 0xdfce00bc), x)
         == Steps(64, Registers(0x7246fad3, 0x14e45506, 0xff4ea3eb, 0x6e10a476), x)
  {
    hide Steps, Turn, Sine, Pick, Shift, Mix;
    Sines4();
    Places4();
    OneII(60, Registers(0x474a9c8c, 0x30130182, 0x36594b14, 0xdfce00bc), x, 0, 6, 0xf7537e82, 0x7246fad3);
    OneII(61, Registers(0xdfce00bc, 0x7246fad3, 0x30130182, 0x36594b14), x, 0, 10, 0xbd3af235, 0x6e10a476);
    OneII(62, Registers(0x36594b14, 0x6e10a476, 0x7246fad3, 0x30130182), x, 0, 15, 0x2ad7d2bb, 0xff4ea3eb);
    OneII(63, Registers(0x30130182, 0xff4ea3eb, 0x6e10a476, 0x7246fad3), x, 0, 21, 0xeb86d391, 0x14e45506);
  }

  lemma OneFF(i: nat, w: Registers, x: seq<bv32>, t: bv32, s: nat, ac: bv32, v: bv32)
    requires |x| == 16 && i < 64 && i / 16 == 0 && x[Pick(i)] == t && Shift(i) == s && Sine(i) == ac
    requires FF(w.a, w.b, w.c, w.d, t, s, ac) == v
    ensures Steps(i, w, x) == Steps(i + 1, Registers(w.d, v, w.b, w.c), x)
  {
    hide Turn, FF, Pick, Shift, Sine;
    IsFF(i, w.a, w.b, w.c, w.d, x, Pick(i), s, ac);
  }

  lemma OneGG(i: nat, w: Registers, x: seq<bv32>, t: bv32, s: nat, ac: bv32, v: bv32)
    requires |x| == 16 && i < 64 && i / 16 == 1 && x[Pick(i)] == t && Shift(i) == s && Sine(i) == ac
    requires GG(w.a, w.b, w.c, w.d, t, s, ac) == v
    ensures Steps(i, w, x) == Steps(i + 1, Registers(w.d, v, w.b, w.c), x)
  {
    hide Turn, GG, Pick, Shift, Sine;
    IsGG(i, w.a, w.b, w.c, w.d, x, Pick(i), s, ac);
  }

  lemma OneHH(i: nat, w: Registers, x: seq<bv32>, t: bv32, s: nat, ac: bv32, v: bv32)
    requires |x| == 16 && i < 64 && i / 16 == 2 && x[Pick(i)] == t && Shift(i) == s && Sine(i) == ac
    requires HH(w.a, w.b, w.c, w.d, t, s, ac) == v
    ensures Steps(i, w, x) == Steps(i + 1, Registers(w.d, v, w.b, w.c), x)
  {
    hide Turn, HH, Pick, Shift, Sine;
    IsHH(i, w.a, w.b, w.c, w.d, x, Pick(i), s, ac);
  }

  lemma OneII(i: nat, w: Registers, x: seq<bv32>, t: bv32, s: nat, ac: bv32, v: bv32)
    requires |x| == 16 && i < 64 && i / 16 == 3 && x[Pick(i)] == t && Shift(i) == s && Sine(i) == ac
    requires II(w.a, w.b, w.c, w.d, t, s, ac) == v
    ensures Steps(i, w, x) == Steps(i + 1, Registers(w.d, v, w.b, w.c), x)
  {
    hide Turn, II, Pick, Shift, Sine;
    IsII(i, w.a, w.b, w.c, w.d, x, Pick(i), s, ac);
  }

  lemma EmptySteps(x: seq<bv32>)
    requires IsEmptyBlock(x)
    ensures Steps(0, Registers(0x67452301, 0xefcdab89, 0x98badcfe, 0x10325476), x)
         == Registers(0x7246fad3, 0x14e45506, 0xff4ea3eb, 0x6e10a476)
  {
    hide Steps;
    Empty1(x);
    Empty2(x);
    Empty3(x);
    Empty4(x);
    Empty5(x);
    Empty6(x);
    Empty7(x);
    Empty8(x);
    Empty9(x);
    Empty10(x);
    Empty11(x);
    Empty12(x);
    Empty13(x);
    Empty14(x);
    Empty15(x);
    Empty16(x);
    StepsEnd(Registers(0x7246fad3, 0x14e45506, 0xff4ea3eb, 0x6e10a476), x);
  }

  lemma Loaded()
    ensures Load(INIT.a) == 0x67452301 && Load(INIT.b) == 0xefcdab89 && Load(INIT.c) == 0x98badcfe && Load(INIT.d) == 0x10325476
  {
  }

  lemma Added()
    ensures Add(INIT.a, 0x7246fad3) == 0xd98c1dd4 && Add(INIT.b, 0x14e45506) == 0x04b2008f
    ensures Add(INIT.c, 0xff4ea3eb) == 0x980980e9 && Add(INIT.d, 0x6e10a476) == 0x7e42f8ec
  {
  }

  lemma {:induction false} DecodeAt(block: seq<byte>, i: nat)
    requires |block| % 4 == 0 && 4 * i < |block|
    ensures Decode(block)[i] == DecodeWord(block[4 * i], block[4 * i + 1], block[4 * i + 2], block[4 * i + 3])
  {
    hide DecodeWord;
    if i > 0 {
      DecodeAt(block[4..], i - 1);
    }
  }

  /** Octets become words least significant first. */
  lemma OctetOrder()
    ensures DecodeWord(0x01, 0x23, 0x45, 0x67) == 0x67452301
  {
  }

  lemma EmptyWords()
    ensures DecodeWord(128, 0, 0, 0) == 0x80 && DecodeWord(0, 0, 0, 0) == 0
  {
  }

  lemma EmptyPadded()
    ensures |Padded([])| == 64 && Padded([])[0] == 128 && forall i :: 0 < i < 64 ==> Padded([])[i] == 0
  {
    hide LittleEndian;
    AllZero(8);
  }

  lemma EmptyDecoded()
    ensures |Padded([])| == 64 && IsEmptyBlock(Decode(Padded([])))
  {
    hide Padded, Decode, DecodeWord;
    EmptyPadded();
    EmptyWords();
    forall i | 0 <= i < 16
      ensures Decode(Padded([]))[i] == if i == 0 then 0x80 else 0
    {
      DecodeAt(Padded([]), i);
    }
  }

  /** MD5 ("") = d41d8cd98f00b204e9800998ecf8427e */
  lemma EmptyDigest()
    ensures Digest(Transform, []) == [0xd4, 0x1d, 0x8c, 0xd9, 0x8f, 0x00, 0xb2, 0x04,
                                      0xe9, 0x80, 0x09, 0x98, 0xec, 0xf8, 0x42, 0x7e]
  {
    hide Padded, Decode, Steps, Load, Add, EncodeWord;
    var m := Padded([]);
    EmptyDecoded();
    Loaded();
    Added();
    EmptySteps(Decode(m));
    assert m[..64] == m && |m[64..]| == 0;
    assert Transform(INIT, m) == Words(0xd98c1dd4, 0x04b2008f, 0x980980e9, 0x7e42f8ec);
    assert Fold(Transform, INIT, m) == Transform(INIT, m) by {
      hide Transform;
    }
    Encoded();
  }

  lemma Encoded()
    ensures EncodeWord(0xd98c1dd4) == [0xd4, 0x1d, 0x8c, 0xd9]
    ensures EncodeWord(0x04b2008f) == [0x8f, 0x00, 0xb2, 0x04]
    ensures EncodeWord(0x980980e9) == [0xe9, 0x80, 0x09, 0x98]
    ensures EncodeWord(0x7e42f8ec) == [0xec, 0xf8, 0x42, 0x7e]
  {
  }
}
