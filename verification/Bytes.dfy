/** Octets, and machine words written as octets the way `fwrite` lays them out on
    the little-endian LP64 machines the save-file header describes. */
module Bytes {

  type byte = x: int | 0 <= x < 256

  const TWO_63 := 0x8000_0000_0000_0000
  const TWO_64 := 0x1_0000_0000_0000_0000

  function Pow256(k: nat): (p: nat)
    ensures p > 0
  {
    if k == 0 then 1 else 256 * Pow256(k - 1)
  }

  /** The low `k` octets of `v`, least significant first. */
  function LittleEndian(v: nat, k: nat): (s: seq<byte>)
    ensures |s| == k
  {
    if k == 0 then [] else [v % 256] + LittleEndian(v / 256, k - 1)
  }

  function Value(s: seq<byte>): nat {
    if s == [] then 0 else s[0] + 256 * Value(s[1..])
  }

  lemma {:induction false} ValueOfLittleEndian(v: nat, k: nat)
    requires v < Pow256(k)
    ensures Value(LittleEndian(v, k)) == v
  {
    if k > 0 {
      ValueOfLittleEndian(v / 256, k - 1);
      assert LittleEndian(v, k)[1..] == LittleEndian(v / 256, k - 1);
    }
  }

  lemma Pow256Of8()
    ensures Pow256(8) == TWO_64
  {
    assert Pow256(2) == 0x1_0000;
    assert Pow256(4) == 0x1_0000_0000;
    assert Pow256(6) == 0x1_0000_0000_0000;
  }

  /** `siod_put_long`: a C `long` as it goes to the file. */
  function PutLong(n: int): (s: seq<byte>)
    ensures |s| == 8
  {
    LittleEndian(n % TWO_64, 8)
  }

  function GetLong(s: seq<byte>): int
    requires |s| == 8
  {
    var u := Value(s);
    if u < TWO_63 then u else u - TWO_64
  }

  lemma LongReadsBack(n: int)
    ensures GetLong(PutLong(n)) == n <==> -TWO_63 <= n < TWO_63
  {
    Pow256Of8();
    ValueOfLittleEndian(n % TWO_64, 8);
  }

  /** The C string at the front of a buffer. */
  function UpToNul(s: seq<byte>): seq<byte> {
    if s == [] || s[0] == 0 then [] else [s[0]] + UpToNul(s[1..])
  }

  lemma {:induction false} NoNulName(name: seq<byte>)
    requires 0 !in name
    ensures UpToNul(name) == name
  {
    if name != [] {
      NoNulName(name[1..]);
    }
  }

  function Ascii(s: string): (b: seq<byte>)
    ensures |b| == |s|
    ensures forall i :: 0 <= i < |s| && s[i] as int < 256 ==> b[i] == s[i] as int
  {
    seq(|s|, i requires 0 <= i < |s| => s[i] as int % 256)
  }

  /** `^` on words that are not negative. */
  function Xor(a: nat, b: nat): nat {
    if a == 0 then b else if b == 0 then a else 2 * Xor(a / 2, b / 2) + (a + b) % 2
  }

  /** Bit by bit, from the lowest. */
  lemma {:induction false} XorStep(a: nat, b: nat)
    ensures Xor(a, 0) == a && Xor(0, b) == b
    ensures a > 0 && b > 0 ==> Xor(a, b) == 2 * Xor(a / 2, b / 2) + (a + b) % 2
  {
  }

  /** A long is written with its lowest octet first. */
  lemma OneIs()
    ensures PutLong(1) == [1, 0, 0, 0, 0, 0, 0, 0] && PutLong(-1) == [255, 255, 255, 255, 255, 255, 255, 255]
  {
    AllZero(7);
    Ones();
    assert LittleEndian(1, 8) == [1] + LittleEndian(0, 7);
  }

  lemma {:induction false} AllZero(k: nat)
    ensures forall i :: 0 <= i < k ==> LittleEndian(0, k)[i] == 0
  {
    if k > 0 {
      AllZero(k - 1);
    }
  }

  lemma Ones()
    ensures LittleEndian(TWO_64 - 1, 8) == [255, 255, 255, 255, 255, 255, 255, 255]
  {
    assert LittleEndian(0xffff_ffff, 4) == [255, 255, 255, 255] by {
      assert LittleEndian(0xffff, 2) == [255, 255];
      assert LittleEndian(0xff_ffff, 3) == [255] + LittleEndian(0xffff, 2);
    }
    assert LittleEndian(0xff_ffff_ffff, 5) == [255] + LittleEndian(0xffff_ffff, 4);
    assert LittleEndian(0xffff_ffff_ffff, 6) == [255] + LittleEndian(0xff_ffff_ffff, 5);
    assert LittleEndian(0xff_ffff_ffff_ffff, 7) == [255] + LittleEndian(0xffff_ffff_ffff, 6);
  }
}
