/** The block transform of MD5 (src/md5.c:189-277; RFC 1321, section 3.4). */
module Md5Block {
  import opened Bytes

  const TWO_32 := 0x1_0000_0000

  type word = n: nat | n < TWO_32

  datatype Words = Words(a: word, b: word, c: word, d: word)

  /** The four registers while the steps run. */
  datatype Registers = Registers(a: bv32, b: bv32, c: bv32, d: bv32)

  /** How far step `i` rotates. */
  function Shift(i: nat): (s: nat)
    requires i < 64
    ensures s <= 32
  {
    (match i / 16
     case 0 => [7, 12, 17, 22]
     case 1 => [5, 9, 14, 20]
     case 2 => [4, 11, 16, 23]
     case _ => [6, 10, 15, 21])[i % 4]
  }

  function Constants1(): (s: seq<bv32>)
    ensures |s| == 16
  {
    [0xd76aa478, 0xe8c7b756, 0x242070db, 0xc1bdceee, 0xf57c0faf, 0x4787c62a, 0xa8304613, 0xfd469501,
     0x698098d8, 0x8b44f7af, 0xffff5bb1, 0x895cd7be, 0x6b901122, 0xfd987193, 0xa679438e, 0x49b40821]
  }

  function Constants2(): (s: seq<bv32>)
    ensures |s| == 16
  {
    [0xf61e2562, 0xc040b340, 0x265e5a51, 0xe9b6c7aa, 0xd62f105d, 0x02441453, 0xd8a1e681, 0xe7d3fbc8,
     0x21e1cde6, 0xc33707d6, 0xf4d50d87, 0x455a14ed, 0xa9e3e905, 0xfcefa3f8, 0x676f02d9, 0x8d2a4c8a]
  }

  function Constants3(): (s: seq<bv32>)
    ensures |s| == 16
  {
    [0xfffa3942, 0x8771f681, 0x6d9d6122, 0xfde5380c, 0xa4beea44, 0x4bdecfa9, 0xf6bb4b60, 0xbebfbc70,
     0x289b7ec6, 0xeaa127fa, 0xd4ef3085, 0x04881d05, 0xd9d4d039, 0xe6db99e5, 0x1fa27cf8, 0xc4ac5665]
  }

  function Constants4(): (s: seq<bv32>)
    ensures |s| == 16
  {
    [0xf4292244, 0x432aff97, 0xab9423a7, 0xfc93a039, 0x655b59c3, 0x8f0ccc92, 0xffeff47d, 0x85845dd1,
     0x6fa87e4f, 0xfe2ce6e0, 0xa3014314, 0x4e0811a1, 0xf7537e82, 0xbd3af235, 0x2ad7d2bb, 0xeb86d391]
  }

  /** The constant of step `i`. */
  function Sine(i: nat): bv32
    requires i < 64
  {
    (match i / 16
     case 0 => Constants1()
     case 1 => Constants2()
     case 2 => Constants3()
     case _ => Constants4())[i % 16]
  }

  function RotateLeft(x: bv32, n: nat): bv32
    requires n <= 32
  {
    (x << n) | (x >> (32 - n))
  }

  /** The function of the round: F, G, H or I. */
  function Mix(round: nat, x: bv32, y: bv32, z: bv32): bv32 {
    if round == 0 then (x & y) | (!x & z)
    else if round == 1 then (x & z) | (y & !z)
    else if round == 2 then x ^ y ^ z
    else y ^ (x | !z)
  }

  /** Which word of the block step `i` takes in. */
  function Pick(i: nat): (k: nat)
    ensures k < 16
  {
    (match i / 16
     case 0 => i
     case 1 => 5 * i + 1
     case 2 => 3 * i + 5
     case _ => 7 * i) % 16
  }

  /** What the macros of all four rounds come to, once they have the function of the round. */
  function Rotated(a: bv32, b: bv32, f: bv32, x: bv32, s: nat, ac: bv32): bv32
    requires s <= 32
  {
    b + RotateLeft(a + f + x + ac, s)
  }

  /** What step `i` makes of the register `a`. */
  function Turn(i: nat, a: bv32, b: bv32, c: bv32, d: bv32, x: seq<bv32>): bv32
    requires |x| == 16 && i < 64
  {
    Rotated(a, b, Mix(i / 16, b, c, d), x[Pick(i)], Shift(i), Sine(i))
  }

  /** The steps from `i` on; each computes one register and the four change places. */
  function Steps(i: nat, w: Registers, x: seq<bv32>): Registers
    requires |x| == 16 && i <= 64
    decreases 64 - i
  {
    if i == 64 then w
    else Steps(i + 1, Registers(w.d, Turn(i, w.a, w.b, w.c, w.d, x), w.b, w.c), x)
  }

  function DecodeWord(b0: byte, b1: byte, b2: byte, b3: byte): bv32 {
    (b0 as bv32) | ((b1 as bv32) << 8) | ((b2 as bv32) << 16) | ((b3 as bv32) << 24)
  }

  function Decode(block: seq<byte>): (x: seq<bv32>)
    requires |block| % 4 == 0
    ensures |x| == |block| / 4
  {
    if block == [] then []
    else [DecodeWord(block[0], block[1], block[2], block[3])] + Decode(block[4..])
  }

  function Load(x: word): bv32 {
    x as bv32
  }

  /** `state[i] += x` */
  function Add(x: word, y: bv32): word {
    (x + y as nat) % 0x1_0000_0000
  }

  function Transform(w: Words, block: seq<byte>): Words {
    if |block| != 64 then w
    else
      var t := Steps(0, Registers(Load(w.a), Load(w.b), Load(w.c), Load(w.d)), Decode(block));
      Words(Add(w.a, t.a), Add(w.b, t.b), Add(w.c, t.c), Add(w.d, t.d))
  }

  // ---- The 64 steps as they are written out -----------------------------------------------

  /** Four steps bring the registers back to their places. */
  lemma Four(i: nat, a: bv32, b: bv32, c: bv32, d: bv32, x: seq<bv32>)
    requires |x| == 16 && i + 4 <= 64
    ensures var a' := Turn(i, a, b, c, d, x);
            var d' := Turn(i + 1, d, a', b, c, x);
            var c' := Turn(i + 2, c, d', a', b, x);
            var b' := Turn(i + 3, b, c', d', a', x);
            Steps(i, Registers(a, b, c, d), x) == Steps(i + 4, Registers(a', b', c', d'), x)
  {
    hide Turn;
    var a' := Turn(i, a, b, c, d, x);
    var d' := Turn(i + 1, d, a', b, c, x);
    var c' := Turn(i + 2, c, d', a', b, x);
    assert Steps(i, Registers(a, b, c, d), x) == Steps(i + 1, Registers(d, a', b, c), x);
    assert Steps(i + 1, Registers(d, a', b, c), x) == Steps(i + 2, Registers(c, d', a', b), x);
    assert Steps(i + 2, Registers(c, d', a', b), x) == Steps(i + 3, Registers(b, c', d', a'), x);
  }

  function FF(a: bv32, b: bv32, c: bv32, d: bv32, x: bv32, s: nat, ac: bv32): bv32
    requires s <= 32
  {
    Rotated(a, b, (b & c) | (!b & d), x, s, ac)
  }

  lemma IsFF(i: nat, a: bv32, b: bv32, c: bv32, d: bv32, x: seq<bv32>, k: nat, s: nat, ac: bv32)
    requires |x| == 16 && i < 64 && i / 16 == 0 && k == Pick(i) && s == Shift(i) && ac == Sine(i)
    ensures Turn(i, a, b, c, d, x) == FF(a, b, c, d, x[k], s, ac)
  {
    hide Rotated, Pick, Shift, Sine;
  }

  function GG(a: bv32, b: bv32, c: bv32, d: bv32, x: bv32, s: nat, ac: bv32): bv32
    requires s <= 32
  {
    Rotated(a, b, (b & d) | (c & !d), x, s, ac)
  }

  lemma IsGG(i: nat, a: bv32, b: bv32, c: bv32, d: bv32, x: seq<bv32>, k: nat, s: nat, ac: bv32)
    requires |x| == 16 && i < 64 && i / 16 == 1 && k == Pick(i) && s == Shift(i) && ac == Sine(i)
    ensures Turn(i, a, b, c, d, x) == GG(a, b, c, d, x[k], s, ac)
  {
    hide Rotated, Pick, Shift, Sine;
  }

  function HH(a: bv32, b: bv32, c: bv32, d: bv32, x: bv32, s: nat, ac: bv32): bv32
    requires s <= 32
  {
    Rotated(a, b, b ^ c ^ d, x, s, ac)
  }

  lemma IsHH(i: nat, a: bv32, b: bv32, c: bv32, d: bv32, x: seq<bv32>, k: nat, s: nat, ac: bv32)
    requires |x| == 16 && i < 64 && i / 16 == 2 && k == Pick(i) && s == Shift(i) && ac == Sine(i)
    ensures Turn(i, a, b, c, d, x) == HH(a, b, c, d, x[k], s, ac)
  {
    hide Rotated, Pick, Shift, Sine;
  }

  function II(a: bv32, b: bv32, c: bv32, d: bv32, x: bv32, s: nat, ac: bv32): bv32
    requires s <= 32
  {
    Rotated(a, b, c ^ (b | !d), x, s, ac)
  }

  lemma IsII(i: nat, a: bv32, b: bv32, c: bv32, d: bv32, x: seq<bv32>, k: nat, s: nat, ac: bv32)
    requires |x| == 16 && i < 64 && i / 16 == 3 && k == Pick(i) && s == Shift(i) && ac == Sine(i)
    ensures Turn(i, a, b, c, d, x) == II(a, b, c, d, x[k], s, ac)
  {
    hide Rotated, Pick, Shift, Sine;
  }

  lemma Row(i: nat)
    requires i < 64
    ensures i < 16 ==> Sine(i) == Constants1()[i]
    ensures 16 <= i < 32 ==> Sine(i) == Constants2()[i - 16]
    ensures 32 <= i < 48 ==> Sine(i) == Constants3()[i - 32]
    ensures 48 <= i ==> Sine(i) == Constants4()[i - 48]
  {
    hide Constants1, Constants2, Constants3, Constants4;
  }

  lemma Sines1()
    ensures Sine(0) == 0xd76aa478 && Sine(1) == 0xe8c7b756 && Sine(2) == 0x242070db && Sine(3) == 0xc1bdceee
    ensures Sine(4) == 0xf57c0faf && Sine(5) == 0x4787c62a && Sine(6) == 0xa8304613 && Sine(7) == 0xfd469501
    ensures Sine(8) == 0x698098d8 && Sine(9) == 0x8b44f7af && Sine(10) == 0xffff5bb1 && Sine(11) == 0x895cd7be
    ensures Sine(12) == 0x6b901122 && Sine(13) == 0xfd987193 && Sine(14) == 0xa679438e && Sine(15) == 0x49b40821
  {
    hide Sine;
    forall i | 0 <= i < 16
      ensures Sine(i) == Constants1()[i]
    {
      Row(i);
    }
  }

  lemma Places1()
    ensures Pick(0) == 0 && Pick(1) == 1 && Pick(2) == 2 && Pick(3) == 3
    ensures Pick(4) == 4 && Pick(5) == 5 && Pick(6) == 6 && Pick(7) == 7
    ensures Pick(8) == 8 && Pick(9) == 9 && Pick(10) == 10 && Pick(11) == 11
    ensures Pick(12) == 12 && Pick(13) == 13 && Pick(14) == 14 && Pick(15) == 15
    ensures Shift(0) == 7 && Shift(1) == 12 && Shift(2) == 17 && Shift(3) == 22
    ensures Shift(4) == 7 && Shift(5) == 12 && Shift(6) == 17 && Shift(7) == 22
    ensures Shift(8) == 7 && Shift(9) == 12 && Shift(10) == 17 && Shift(11) == 22
    ensures Shift(12) == 7 && Shift(13) == 12 && Shift(14) == 17 && Shift(15) == 22
  {
  }

  lemma Sines2()
    ensures Sine(16) == 0xf61e2562 && Sine(17) == 0xc040b340 && Sine(18) == 0x265e5a51 && Sine(19) == 0xe9b6c7aa
    ensures Sine(20) == 0xd62f105d && Sine(21) == 0x02441453 && Sine(22) == 0xd8a1e681 && Sine(23) == 0xe7d3fbc8
    ensures Sine(24) == 0x21e1cde6 && Sine(25) == 0xc33707d6 && Sine(26) == 0xf4d50d87 && Sine(27) == 0x455a14ed
    ensures Sine(28) == 0xa9e3e905 && Sine(29) == 0xfcefa3f8 && Sine(30) == 0x676f02d9 && Sine(31) == 0x8d2a4c8a
  {
    hide Sine;
    forall i | 16 <= i < 32
      ensures Sine(i) == Constants2()[i - 16]
    {
      Row(i);
    }
  }

  lemma Places2()
    ensures Pick(16) == 1 && Pick(17) == 6 && Pick(18) == 11 && Pick(19) == 0
    ensures Pick(20) == 5 && Pick(21) == 10 && Pick(22) == 15 && Pick(23) == 4
    ensures Pick(24) == 9 && Pick(25) == 14 && Pick(26) == 3 && Pick(27) == 8
    ensures Pick(28) == 13 && Pick(29) == 2 && Pick(30) == 7 && Pick(31) == 12
    ensures Shift(16) == 5 && Shift(17) == 9 && Shift(18) == 14 && Shift(19) == 20
    ensures Shift(20) == 5 && Shift(21) == 9 && Shift(22) == 14 && Shift(23) == 20
    ensures Shift(24) == 5 && Shift(25) == 9 && Shift(26) == 14 && Shift(27) == 20
    ensures Shift(28) == 5 && Shift(29) == 9 && Shift(30) == 14 && Shift(31) == 20
  {
  }

  lemma Sines3()
    ensures Sine(32) == 0xfffa3942 && Sine(33) == 0x8771f681 && Sine(34) == 0x6d9d6122 && Sine(35) == 0xfde5380c
    ensures Sine(36) == 0xa4beea44 && Sine(37) == 0x4bdecfa9 && Sine(38) == 0xf6bb4b60 && Sine(39) == 0xbebfbc70
    ensures Sine(40) == 0x289b7ec6 && Sine(41) == 0xeaa127fa && Sine(42) == 0xd4ef3085 && Sine(43) == 0x04881d05
    ensures Sine(44) == 0xd9d4d039 && Sine(45) == 0xe6db99e5 && Sine(46) == 0x1fa27cf8 && Sine(47) == 0xc4ac5665
  {
    hide Sine;
    forall i | 32 <= i < 48
      ensures Sine(i) == Constants3()[i - 32]
    {
      Row(i);
    }
  }

  lemma Places3()
    ensures Pick(32) == 5 && Pick(33) == 8 && Pick(34) == 11 && Pick(35) == 14
    ensures Pick(36) == 1 && Pick(37) == 4 && Pick(38) == 7 && Pick(39) == 10
    ensures Pick(40) == 13 && Pick(41) == 0 && Pick(42) == 3 && Pick(43) == 6
    ensures Pick(44) == 9 && Pick(45) == 12 && Pick(46) == 15 && Pick(47) == 2
    ensures Shift(32) == 4 && Shift(33) == 11 && Shift(34) == 16 && Shift(35) == 23
    ensures Shift(36) == 4 && Shift(37) == 11 && Shift(38) == 16 && Shift(39) == 23
    ensures Shift(40) == 4 && Shift(41) == 11 && Shift(42) == 16 && Shift(43) == 23
    ensures Shift(44) == 4 && Shift(45) == 11 && Shift(46) == 16 && Shift(47) == 23
  {
  }

  lemma Sines4()
    ensures Sine(48) == 0xf4292244 && Sine(49) == 0x432aff97 && Sine(50) == 0xab9423a7 && Sine(51) == 0xfc93a039
    ensures Sine(52) == 0x655b59c3 && Sine(53) == 0x8f0ccc92 && Sine(54) == 0xffeff47d && Sine(55) == 0x85845dd1
    ensures Sine(56) == 0x6fa87e4f && Sine(57) == 0xfe2ce6e0 && Sine(58) == 0xa3014314 && Sine(59) == 0x4e0811a1
    ensures Sine(60) == 0xf7537e82 && Sine(61) == 0xbd3af235 && Sine(62) == 0x2ad7d2bb && Sine(63) == 0xeb86d391
  {
    hide Sine;
    forall i | 48 <= i < 64
      ensures Sine(i) == Constants4()[i - 48]
    {
      Row(i);
    }
  }

  lemma Places4()
    ensures Pick(48) == 0 && Pick(49) == 7 && Pick(50) == 14 && Pick(51) == 5
    ensures Pick(52) == 12 && Pick(53) == 3 && Pick(54) == 10 && Pick(55) == 1
    ensures Pick(56) == 8 && Pick(57) == 15 && Pick(58) == 6 && Pick(59) == 13
    ensures Pick(60) == 4 && Pick(61) == 11 && Pick(62) == 2 && Pick(63) == 9
    ensures Shift(48) == 6 && Shift(49) == 10 && Shift(50) == 15 && Shift(51) == 21
    ensures Shift(52) == 6 && Shift(53) == 10 && Shift(54) == 15 && Shift(55) == 21
    ensures Shift(56) == 6 && Shift(57) == 10 && Shift(58) == 15 && Shift(59) == 21
    ensures Shift(60) == 6 && Shift(61) == 10 && Shift(62) == 15 && Shift(63) == 21
  {
  }

  method Round1(w: Registers, x: seq<bv32>) returns (r: Registers)
    requires |x| == 16
    ensures Steps(0, w, x) == Steps(16, r, x)
  {
    hide *;
    var a, b, c, d := w.a, w.b, w.c, w.d;
    Sines1();
    Places1();
    Four(0, a, b, c, d, x);
    IsFF(0, a, b, c, d, x, 0, 7, 0xd76aa478);
    a := FF(a, b, c, d, x[0], 7, 0xd76aa478);
    IsFF(1, d, a, b, c, x, 1, 12, 0xe8c7b756);
    d := FF(d, a, b, c, x[1], 12, 0xe8c7b756);
    IsFF(2, c, d, a, b, x, 2, 17, 0x242070db);
    c := FF(c, d, a, b, x[2], 17, 0x242070db);
    IsFF(3, b, c, d, a, x, 3, 22, 0xc1bdceee);
    b := FF(b, c, d, a, x[3], 22, 0xc1bdceee);
    Four(4, a, b, c, d, x);
    IsFF(4, a, b, c, d, x, 4, 7, 0xf57c0faf);
    a := FF(a, b, c, d, x[4], 7, 0xf57c0faf);
    IsFF(5, d, a, b, c, x, 5, 12, 0x4787c62a);
    d := FF(d, a, b, c, x[5], 12, 0x4787c62a);
    IsFF(6, c, d, a, b, x, 6, 17, 0xa8304613);
    c := FF(c, d, a, b, x[6], 17, 0xa8304613);
    IsFF(7, b, c, d, a, x, 7, 22, 0xfd469501);
    b := FF(b, c, d, a, x[7], 22, 0xfd469501);
    Four(8, a, b, c, d, x);
    IsFF(8, a, b, c, d, x, 8, 7, 0x698098d8);
    a := FF(a, b, c, d, x[8], 7, 0x698098d8);
    IsFF(9, d, a, b, c, x, 9, 12, 0x8b44f7af);
    d := FF(d, a, b, c, x[9], 12, 0x8b44f7af);
    IsFF(10, c, d, a, b, x, 10, 17, 0xffff5bb1);
    c := FF(c, d, a, b, x[10], 17, 0xffff5bb1);
    IsFF(11, b, c, d, a, x, 11, 22, 0x895cd7be);
    b := FF(b, c, d, a, x[11], 22, 0x895cd7be);
    Four(12, a, b, c, d, x);
    IsFF(12, a, b, c, d, x, 12, 7, 0x6b901122);
    a := FF(a, b, c, d, x[12], 7, 0x6b901122);
    IsFF(13, d, a, b, c, x, 13, 12, 0xfd987193);
    d := FF(d, a, b, c, x[13], 12, 0xfd987193);
    IsFF(14, c, d, a, b, x, 14, 17, 0xa679438e);
    c := FF(c, d, a, b, x[14], 17, 0xa679438e);
    IsFF(15, b, c, d, a, x, 15, 22, 0x49b40821);
    b := FF(b, c, d, a, x[15], 22, 0x49b40821);
    r := Registers(a, b, c, d);
  }

  method Round2(w: Registers, x: seq<bv32>) returns (r: Registers)
    requires |x| == 16
    ensures Steps(16, w, x) == Steps(32, r, x)
  {
    hide *;
    var a, b, c, d := w.a, w.b, w.c, w.d;
    Sines2();
    Places2();
    Four(16, a, b, c, d, x);
    IsGG(16, a, b, c, d, x, 1, 5, 0xf61e2562);
    a := GG(a, b, c, d, x[1], 5, 0xf61e2562);
    IsGG(17, d, a, b, c, x, 6, 9, 0xc040b340);
    d := GG(d, a, b, c, x[6], 9, 0xc040b340);
    IsGG(18, c, d, a, b, x, 11, 14, 0x265e5a51);
    c := GG(c, d, a, b, x[11], 14, 0x265e5a51);
    IsGG(19, b, c, d, a, x, 0, 20, 0xe9b6c7aa);
    b := GG(b, c, d, a, x[0], 20, 0xe9b6c7aa);
    Four(20, a, b, c, d, x);
    IsGG(20, a, b, c, d, x, 5, 5, 0xd62f105d);
    a := GG(a, b, c, d, x[5], 5, 0xd62f105d);
    IsGG(21, d, a, b, c, x, 10, 9, 0x02441453);
    d := GG(d, a, b, c, x[10], 9, 0x02441453);
    IsGG(22, c, d, a, b, x, 15, 14, 0xd8a1e681);
    c := GG(c, d, a, b, x[15], 14, 0xd8a1e681);
    IsGG(23, b, c, d, a, x, 4, 20, 0xe7d3fbc8);
    b := GG(b, c, d, a, x[4], 20, 0xe7d3fbc8);
    Four(24, a, b, c, d, x);
    IsGG(24, a, b, c, d, x, 9, 5, 0x21e1cde6);
    a := GG(a, b, c, d, x[9], 5, 0x21e1cde6);
    IsGG(25, d, a, b, c, x, 14, 9, 0xc33707d6);
    d := GG(d, a, b, c, x[14], 9, 0xc33707d6);
    IsGG(26, c, d, a, b, x, 3, 14, 0xf4d50d87);
    c := GG(c, d, a, b, x[3], 14, 0xf4d50d87);
    IsGG(27, b, c, d, a, x, 8, 20, 0x455a14ed);
    b := GG(b, c, d, a, x[8], 20, 0x455a14ed);
    Four(28, a, b, c, d, x);
    IsGG(28, a, b, c, d, x, 13, 5, 0xa9e3e905);
    a := GG(a, b, c, d, x[13], 5, 0xa9e3e905);
    IsGG(29, d, a, b, c, x, 2, 9, 0xfcefa3f8);
    d := GG(d, a, b, c, x[2], 9, 0xfcefa3f8);
    IsGG(30, c, d, a, b, x, 7, 14, 0x676f02d9);
    c := GG(c, d, a, b, x[7], 14, 0x676f02d9);
    IsGG(31, b, c, d, a, x, 12, 20, 0x8d2a4c8a);
    b := GG(b, c, d, a, x[12], 20, 0x8d2a4c8a);
    r := Registers(a, b, c, d);
  }

  method Round3(w: Registers, x: seq<bv32>) returns (r: Registers)
    requires |x| == 16
    ensures Steps(32, w, x) == Steps(48, r, x)
  {
    hide *;
    var a, b, c, d := w.a, w.b, w.c, w.d;
    Sines3();
    Places3();
    Four(32, a, b, c, d, x);
    IsHH(32, a, b, c, d, x, 5, 4, 0xfffa3942);
    a := HH(a, b, c, d, x[5], 4, 0xfffa3942);
    IsHH(33, d, a, b, c, x, 8, 11, 0x8771f681);
    d := HH(d, a, b, c, x[8], 11, 0x8771f681);
    IsHH(34, c, d, a, b, x, 11, 16, 0x6d9d6122);
    c := HH(c, d, a, b, x[11], 16, 0x6d9d6122);
    IsHH(35, b, c, d, a, x, 14, 23, 0xfde5380c);
    b := HH(b, c, d, a, x[14], 23, 0xfde5380c);
    Four(36, a, b, c, d, x);
    IsHH(36, a, b, c, d, x, 1, 4, 0xa4beea44);
    a := HH(a, b, c, d, x[1], 4, 0xa4beea44);
    IsHH(37, d, a, b, c, x, 4, 11, 0x4bdecfa9);
    d := HH(d, a, b, c, x[4], 11, 0x4bdecfa9);
    IsHH(38, c, d, a, b, x, 7, 16, 0xf6bb4b60);
    c := HH(c, d, a, b, x[7], 16, 0xf6bb4b60);
    IsHH(39, b, c, d, a, x, 10, 23, 0xbebfbc70);
    b := HH(b, c, d, a, x[10], 23, 0xbebfbc70);
    Four(40, a, b, c, d, x);
    IsHH(40, a, b, c, d, x, 13, 4, 0x289b7ec6);
    a := HH(a, b, c, d, x[13], 4, 0x289b7ec6);
    IsHH(41, d, a, b, c, x, 0, 11, 0xeaa127fa);
    d := HH(d, a, b, c, x[0], 11, 0xeaa127fa);
    IsHH(42, c, d, a, b, x, 3, 16, 0xd4ef3085);
    c := HH(c, d, a, b, x[3], 16, 0xd4ef3085);
    IsHH(43, b, c, d, a, x, 6, 23, 0x04881d05);
    b := HH(b, c, d, a, x[6], 23, 0x04881d05);
    Four(44, a, b, c, d, x);
    IsHH(44, a, b, c, d, x, 9, 4, 0xd9d4d039);
    a := HH(a, b, c, d, x[9], 4, 0xd9d4d039);
    IsHH(45, d, a, b, c, x, 12, 11, 0xe6db99e5);
    d := HH(d, a, b, c, x[12], 11, 0xe6db99e5);
    IsHH(46, c, d, a, b, x, 15, 16, 0x1fa27cf8);
    c := HH(c, d, a, b, x[15], 16, 0x1fa27cf8);
    IsHH(47, b, c, d, a, x, 2, 23, 0xc4ac5665);
    b := HH(b, c, d, a, x[2], 23, 0xc4ac5665);
    r := Registers(a, b, c, d);
  }

  method Round4(w: Registers, x: seq<bv32>) returns (r: Registers)
    requires |x| == 16
    ensures Steps(48, w, x) == Steps(64, r, x)
  {
    hide *;
    var a, b, c, d := w.a, w.b, w.c, w.d;
    Sines4();
    Places4();
    Four(48, a, b, c, d, x);
    IsII(48, a, b, c, d, x, 0, 6, 0xf4292244);
    a := II(a, b, c, d, x[0], 6, 0xf4292244);
    IsII(49, d, a, b, c, x, 7, 10, 0x432aff97);
    d := II(d, a, b, c, x[7], 10, 0x432aff97);
    IsII(50, c, d, a, b, x, 14, 15, 0xab9423a7);
    c := II(c, d, a, b, x[14], 15, 0xab9423a7);
    IsII(51, b, c, d, a, x, 5, 21, 0xfc93a039);
    b := II(b, c, d, a, x[5], 21, 0xfc93a039);
    Four(52, a, b, c, d, x);
    IsII(52, a, b, c, d, x, 12, 6, 0x655b59c3);
    a := II(a, b, c, d, x[12], 6, 0x655b59c3);
    IsII(53, d, a, b, c, x, 3, 10, 0x8f0ccc92);
    d := II(d, a, b, c, x[3], 10, 0x8f0ccc92);
    IsII(54, c, d, a, b, x, 10, 15, 0xffeff47d);
    c := II(c, d, a, b, x[10], 15, 0xffeff47d);
    IsII(55, b, c, d, a, x, 1, 21, 0x85845dd1);
    b := II(b, c, d, a, x[1], 21, 0x85845dd1);
    Four(56, a, b, c, d, x);
    IsII(56, a, b, c, d, x, 8, 6, 0x6fa87e4f);
    a := II(a, b, c, d, x[8], 6, 0x6fa87e4f);
    IsII(57, d, a, b, c, x, 15, 10, 0xfe2ce6e0);
    d := II(d, a, b, c, x[15], 10, 0xfe2ce6e0);
    IsII(58, c, d, a, b, x, 6, 15, 0xa3014314);
    c := II(c, d, a, b, x[6], 15, 0xa3014314);
    IsII(59, b, c, d, a, x, 13, 21, 0x4e0811a1);
    b := II(b, c, d, a, x[13], 21, 0x4e0811a1);
    Four(60, a, b, c, d, x);
    IsII(60, a, b, c, d, x, 4, 6, 0xf7537e82);
    a := II(a, b, c, d, x[4], 6, 0xf7537e82);
    IsII(61, d, a, b, c, x, 11, 10, 0xbd3af235);
    d := II(d, a, b, c, x[11], 10, 0xbd3af235);
    IsII(62, c, d, a, b, x, 2, 15, 0x2ad7d2bb);
    c := II(c, d, a, b, x[2], 15, 0x2ad7d2bb);
    IsII(63, b, c, d, a, x, 9, 21, 0xeb86d391);
    b := II(b, c, d, a, x[9], 21, 0xeb86d391);
    r := Registers(a, b, c, d);
  }

  /** `MD5Transform` */
  method MD5Transform(state: Words, block: seq<byte>) returns (w: Words)
    requires |block| == 64
    ensures w == Transform(state, block)
  {
    hide Steps, Decode, Add, Load;
    var x := Decode(block);
    var r := Registers(Load(state.a), Load(state.b), Load(state.c), Load(state.d));
    r := Round1(r, x);
    r := Round2(r, x);
    r := Round3(r, x);
    r := Round4(r, x);
    StepsEnd(r, x);
    w := Words(Add(state.a, r.a), Add(state.b, r.b), Add(state.c, r.c), Add(state.d, r.d));
  }

  lemma StepsEnd(w: Registers, x: seq<bv32>)
    requires |x| == 16
    ensures Steps(64, w, x) == w
  {
  }
}
