/** Base 64 (src/sliba.c:1230-1332; section 4 of RFC 4648). Shifts and masks of the source
    are written as division and remainder by powers of two. */
module Base64 {
  import opened Bytes

  const PAD: byte := 61

  /** The encode table without its padding character. */
  function Letter(i: nat): (c: byte)
    requires i < 64
    ensures c != PAD && c != 0
  {
    if i < 26 then 65 + i
    else if i < 52 then 71 + i
    else if i < 62 then i - 4
    else if i == 62 then 43
    else 47
  }

  /** The decode table: anything that is no letter, padding included, has a bit beyond the
      low six. */
  function Code(c: byte): (i: nat)
    ensures i < 64 ==> Letter(i) == c
  {
    if 65 <= c <= 90 then c - 65
    else if 97 <= c <= 122 then c - 71
    else if 48 <= c <= 57 then c + 4
    else if c == 43 then 62
    else if c == 47 then 63
    else 64
  }

  lemma CodeOfLetter(i: nat)
    requires i < 64
    ensures Code(Letter(i)) == i
  {
  }

  // ---- Groups ------------------------------------------------------------------------

  function Item1(x: byte): (i: nat)
    ensures i < 64
  {
    x / 4
  }

  function Item2(x: byte, y: byte): (i: nat)
    ensures i < 64
  {
    x % 4 * 16 + y / 16
  }

  function Item3(x: byte, y: byte): (i: nat)
    ensures i < 64
  {
    x % 16 * 4 + y / 64
  }

  function Item4(x: byte): (i: nat)
    ensures i < 64
  {
    x % 64
  }

  function Four(x: byte, y: byte, z: byte): seq<byte> {
    [Letter(Item1(x)), Letter(Item2(x, y)), Letter(Item3(y, z)), Letter(Item4(z))]
  }

  function Encode(s: seq<byte>): seq<byte> {
    if |s| == 0 then []
    else if |s| == 1 then [Letter(Item1(s[0])), Letter(Item2(s[0], 0)), PAD, PAD]
    else if |s| == 2 then [Letter(Item1(s[0])), Letter(Item2(s[0], s[1])), Letter(Item3(s[1], 0)), PAD]
    else Four(s[0], s[1], s[2]) + Encode(s[3..])
  }

  datatype Decoded = Octets(s: seq<byte>) | Nil | IllegalLength

  function First(a: nat, b: nat): byte { (a * 4 + b / 16) % 256 }

  function Second(b: nat, c: nat): byte { (b * 16 + c / 4) % 256 }

  function Third(c: nat, d: nat): byte { (c * 64 + d) % 256 }

  /** A full group of four, NIL if one of them is no letter. */
  function Chunk(t: seq<byte>): Decoded
    requires |t| == 4
  {
    var a, b, c, d := Code(t[0]), Code(t[1]), Code(t[2]), Code(t[3]);
    if a >= 64 || b >= 64 || c >= 64 || d >= 64 then Nil
    else Octets([First(a, b), Second(b, c), Third(c, d)])
  }

  /** The last group, which padding may end. */
  function LastGroup(t: seq<byte>): Decoded
    requires |t| == 4
  {
    var a, b, c := Code(t[0]), Code(t[1]), Code(t[2]);
    if t[3] != PAD then Chunk(t)
    else if t[2] == PAD then (if a >= 64 || b >= 64 then Nil else Octets([First(a, b)]))
    else if a >= 64 || b >= 64 || c >= 64 then Nil
    else Octets([First(a, b), Second(b, c)])
  }

  function Join(a: Decoded, b: Decoded): Decoded {
    if a.Octets? && b.Octets? then Octets(a.s + b.s) else Nil
  }

  function Groups(t: seq<byte>): Decoded
    requires |t| > 0 && |t| % 4 == 0
  {
    if |t| == 4 then LastGroup(t) else Join(Chunk(t[..4]), Groups(t[4..]))
  }

  function Decode(t: seq<byte>): Decoded {
    if |t| == 0 then Octets([]) else if |t| % 4 != 0 then IllegalLength else Groups(t)
  }

  // ---- Inverses ------------------------------------------------------------------------

  lemma Wrap(q: nat, v: nat)
    requires v < 256
    ensures (q * 256 + v) % 256 == v
  {
  }

  lemma Quarter(u: nat, k: nat)
    requires k < 4
    ensures (u * 4 + k) / 4 == u
  {
  }

  lemma FirstBack(x: byte, y: byte)
    ensures First(Item1(x), Item2(x, y)) == x
  {
    assert (x % 4 * 16 + y / 16) / 16 == x % 4;
  }

  lemma SecondBack(x: byte, y: byte, z: byte)
    ensures Second(Item2(x, y), Item3(y, z)) == y
  {
    var q, h, l, k := x % 4, y / 16, y % 16, z / 64;
    assert y == h * 16 + l && k < 4;
    Quarter(l, k);
    assert (q * 16 + h) * 16 + l == q * 256 + y;
    Wrap(q, y);
  }

  lemma ThirdBack(y: byte, z: byte)
    ensures Third(Item3(y, z), Item4(z)) == z
  {
    var q := y % 16;
    assert (q * 4 + z / 64) * 64 + z % 64 == q * 256 + z;
    Wrap(q, z);
  }

  lemma Item1Back(a: nat, b: nat)
    requires a < 64 && b < 64
    ensures Item1(First(a, b)) == a && First(a, b) % 4 == b / 16
  {
    assert a * 4 + b / 16 < 256;
  }

  lemma Halves(u: nat, v: nat)
    requires v < 16
    ensures (u * 16 + v) / 16 == u && (u * 16 + v) % 16 == v
  {
  }

  lemma SecondIs(b: nat, c: nat)
    requires b < 64 && c < 64
    ensures Second(b, c) == b % 16 * 16 + c / 4
    ensures Second(b, c) / 16 == b % 16 && Second(b, c) % 16 == c / 4
  {
    var q, u, v := b / 16, b % 16, c / 4;
    assert b == q * 16 + u && u < 16 && v < 16;
    Wrap(q, u * 16 + v);
    Halves(u, v);
    assert b * 16 + v == q * 256 + (u * 16 + v);
  }

  lemma ThirdIs(c: nat, d: nat)
    requires c < 64 && d < 64
    ensures Third(c, d) == c % 4 * 64 + d
    ensures Third(c, d) / 64 == c % 4 && Third(c, d) % 64 == d
  {
    var q, u := c / 4, c % 4;
    assert c == q * 4 + u && u < 4;
    Wrap(q, u * 64 + d);
    assert c * 64 + d == q * 256 + (u * 64 + d);
  }

  lemma Item2Back(a: nat, b: nat, c: nat)
    requires a < 64 && b < 64 && c < 64
    ensures Item2(First(a, b), Second(b, c)) == b
  {
    hide First, Second;
    Item1Back(a, b);
    SecondIs(b, c);
  }

  lemma Item3Back(b: nat, c: nat, d: nat)
    requires b < 64 && c < 64 && d < 64
    ensures Item3(Second(b, c), Third(c, d)) == c
  {
    hide Second, Third;
    SecondIs(b, c);
    ThirdIs(c, d);
  }

  lemma {:induction false} EncodedLength(s: seq<byte>)
    ensures |Encode(s)| == 4 * ((|s| + 2) / 3)
    ensures 0 !in Encode(s)
  {
    hide Item1, Item2, Item3, Item4, Letter;
    if |s| >= 3 {
      EncodedLength(s[3..]);
    }
  }

  lemma CodesOfFour(x: byte, y: byte, z: byte)
    ensures var t := Four(x, y, z);
            && Code(t[0]) == Item1(x) && Code(t[1]) == Item2(x, y) && Code(t[2]) == Item3(y, z) && Code(t[3]) == Item4(z)
            && t[3] != PAD
  {
    hide Letter, Code, Item1, Item2, Item3, Item4;
    CodeOfLetter(Item1(x));
    CodeOfLetter(Item2(x, y));
    CodeOfLetter(Item3(y, z));
    CodeOfLetter(Item4(z));
  }

  lemma ChunkOfFour(x: byte, y: byte, z: byte)
    ensures Chunk(Four(x, y, z)) == Octets([x, y, z]) && Four(x, y, z)[3] != PAD
  {
    hide Four, Letter, Code, Item1, Item2, Item3, Item4, First, Second, Third;
    CodesOfFour(x, y, z);
    FirstBack(x, y);
    SecondBack(x, y, z);
    ThirdBack(y, z);
  }

  lemma ShortBack(s: seq<byte>)
    requires 1 <= |s| <= 2
    ensures |Encode(s)| == 4 && LastGroup(Encode(s)) == Octets(s)
  {
    hide Letter, Code, Item1, Item2, Item3, Item4, First, Second, Third;
    CodeOfLetter(Item1(s[0]));
    if |s| == 1 {
      CodeOfLetter(Item2(s[0], 0));
      FirstBack(s[0], 0);
      assert s == [s[0]];
    } else {
      CodeOfLetter(Item2(s[0], s[1]));
      CodeOfLetter(Item3(s[1], 0));
      FirstBack(s[0], s[1]);
      SecondBack(s[0], s[1], 0);
      assert s == [s[0], s[1]];
    }
  }

  lemma LessFour(n: nat)
    requires n >= 4
    ensures (n - 4) % 4 == n % 4
  {
  }

  /** A group in front of whole groups is decoded by itself. */
  lemma GroupsStep(f: seq<byte>, rest: seq<byte>)
    requires |f| == 4 && |rest| % 4 == 0 && rest != []
    ensures |f + rest| % 4 == 0 && Groups(f + rest) == Join(Chunk(f), Groups(rest))
  {
    hide Chunk, LastGroup, Join;
    var t := f + rest;
    LessFour(|t|);
    assert t[..4] == f && t[4..] == rest && |t| > 4;
  }

  /** Decoding undoes encoding, for every sequence of octets. */
  lemma {:induction false} DecodeEncode(s: seq<byte>)
    ensures Decode(Encode(s)) == Octets(s)
  {
    hide Letter, Code, Item1, Item2, Item3, Item4, Chunk, Four, Groups;
    EncodedLength(s);
    if |s| == 0 {
    } else if |s| < 3 {
      ShortBack(s);
      OneGroup(Encode(s));
    } else {
      ChunkOfFour(s[0], s[1], s[2]);
      var f, rest := Four(s[0], s[1], s[2]), Encode(s[3..]);
      EncodedLength(s[3..]);
      DecodeEncode(s[3..]);
      FourIsFour(s[0], s[1], s[2]);
      assert [s[0], s[1], s[2]] + s[3..] == s;
      if |s| == 3 {
        assert f + rest == f && s == [s[0], s[1], s[2]];
        OneGroup(f);
      } else {
        GroupsStep(f, rest);
      }
    }
  }

  lemma OneGroup(t: seq<byte>)
    requires |t| == 4
    ensures Decode(t) == LastGroup(t)
  {
    hide LastGroup;
  }

  lemma FourIsFour(x: byte, y: byte, z: byte)
    ensures |Four(x, y, z)| == 4
  {
  }

  /** The bits of the last letter that padding leaves without an octet are zero. */
  predicate SpareBitsZero(t: seq<byte>)
    requires |t| > 0 && |t| % 4 == 0
  {
    var n := |t|;
    if t[n - 1] != PAD then true
    else if t[n - 2] == PAD then Code(t[n - 3]) % 16 == 0
    else Code(t[n - 2]) % 4 == 0
  }

  lemma FourOfChunk(t: seq<byte>)
    requires |t| == 4 && Chunk(t).Octets?
    ensures var o := Chunk(t).s; |o| == 3 && Four(o[0], o[1], o[2]) == t
  {
    hide Letter, Code, Item1, Item2, Item3, Item4, First, Second, Third;
    var a, b, c, d := Code(t[0]), Code(t[1]), Code(t[2]), Code(t[3]);
    Item1Back(a, b);
    Item2Back(a, b, c);
    Item3Back(b, c, d);
    ThirdIs(c, d);
    LastItem(Third(c, d));
  }

  lemma LastItem(x: byte)
    ensures Item4(x) == x % 64
  {
  }

  /** Two letters and two paddings. */
  lemma OneOctet(t: seq<byte>)
    requires |t| == 4 && t[3] == PAD && t[2] == PAD && Code(t[0]) < 64 && Code(t[1]) < 64
    ensures var a, b := Code(t[0]), Code(t[1]);
            Encode([First(a, b)]) == t <==> b % 16 == 0
  {
    hide Letter, Code, First;
    var a, b := Code(t[0]), Code(t[1]);
    Item1Back(a, b);
    var i := Item2(First(a, b), 0);
    assert i == b <==> b % 16 == 0;
    CodeOfLetter(i);
    assert t == [t[0], t[1], PAD, PAD];
  }

  /** Three letters and one padding. */
  lemma TwoOctets(t: seq<byte>)
    requires |t| == 4 && t[3] == PAD && t[2] != PAD && Code(t[0]) < 64 && Code(t[1]) < 64 && Code(t[2]) < 64
    ensures var a, b, c := Code(t[0]), Code(t[1]), Code(t[2]);
            Encode([First(a, b), Second(b, c)]) == t <==> c % 4 == 0
  {
    hide Letter, Code, First, Second, Item1, Item2;
    var a, b, c := Code(t[0]), Code(t[1]), Code(t[2]);
    Item1Back(a, b);
    Item2Back(a, b, c);
    SecondIs(b, c);
    var i := Item3(Second(b, c), 0);
    assert i == c <==> c % 4 == 0;
    CodeOfLetter(i);
    assert t == [t[0], t[1], t[2], PAD];
  }

  lemma LastOfGroup(t: seq<byte>)
    requires |t| == 4 && LastGroup(t).Octets?
    ensures var o := LastGroup(t).s;
            && 1 <= |o| <= 3
            && (Encode(o) == t <==> SpareBitsZero(t))
  {
    hide Letter, Code, Item1, Item2, Item3, Item4, First, Second, Third, Four;
    if t[3] != PAD {
      FourOfChunk(t);
      var o := LastGroup(t).s;
      assert o[3..] == [];
      assert Four(o[0], o[1], o[2]) + [] == t;
    } else if t[2] == PAD {
      OneOctet(t);
    } else {
      TwoOctets(t);
    }
  }

  lemma {:induction false} GroupsEncode(t: seq<byte>)
    requires |t| > 0 && |t| % 4 == 0 && Groups(t).Octets?
    ensures Encode(Groups(t).s) == t <==> SpareBitsZero(t)
  {
    hide Letter, Code, Item1, Item2, Item3, Item4, First, Second, Third, Four, Chunk, LastGroup;
    if |t| == 4 {
      LastOfGroup(t);
    } else {
      var f, g := t[..4], t[4..];
      var o, p := Chunk(f).s, Groups(g).s;
      FourOfChunk(f);
      LessFour(|t|);
      GroupsEncode(g);
      assert (o + p)[3..] == p;
      assert Encode(o + p) == f + Encode(p);
      assert t == f + g;
      if f + Encode(p) == t {
        assert Encode(p) == (f + Encode(p))[4..];
      }
    }
  }

  /** Encoding undoes decoding exactly when the spare bits are zero. */
  lemma EncodeDecodeExactly(t: seq<byte>)
    requires Decode(t).Octets?
    ensures Encode(Decode(t).s) == t <==> |t| == 0 || SpareBitsZero(t)
  {
    if |t| > 0 {
      GroupsEncode(t);
    }
  }

  // ---- The loops -------------------------------------------------------------------------

  lemma EncodeStep(s: seq<byte>, j: nat)
    requires 3 * j + 3 <= |s|
    ensures Encode(s[3 * j..]) == Four(s[3 * j], s[3 * j + 1], s[3 * j + 2]) + Encode(s[3 * j + 3..])
  {
    hide Four;
    var r := s[3 * j..];
    assert r[3..] == s[3 * j + 3..];
  }

  method PutFour(out: array<byte>, at: nat, f: seq<byte>)
    requires |f| == 4 && at + 4 <= out.Length
    modifies out
    ensures out[..at + 4] == old(out[..at]) + f
  {
    out[at], out[at + 1], out[at + 2], out[at + 3] := f[0], f[1], f[2], f[3];
  }

  /** `siod_base64encode`: the output buffer is sized beforehand and filled exactly. */
  method Base64Encode(s: seq<byte>) returns (out: array<byte>)
    ensures fresh(out) && out[..] == Encode(s)
  {
    hide Item1, Item2, Item3, Item4, Letter, Four, Encode;
    var chunks, leftover := |s| / 3, |s| % 3;
    var m := (chunks + if leftover != 0 then 1 else 0) * 4;
    out := new byte[m];
    EncodedLength(s);
    var j := 0;
    assert s[3 * 0..] == s && out[..4 * 0] == [];
    assert out[..4 * 0] + Encode(s) == Encode(s);
    while j < chunks
      invariant j <= chunks && out[..4 * j] + Encode(s[3 * j..]) == Encode(s)
    {
      EncodeStep(s, j);
      FourIsFour(s[3 * j], s[3 * j + 1], s[3 * j + 2]);
      var f := Four(s[3 * j], s[3 * j + 1], s[3 * j + 2]);
      assert out[..4 * j] + (f + Encode(s[3 * j + 3..])) == out[..4 * j] + f + Encode(s[3 * j + 3..]);
      PutFour(out, 4 * j, f);
      j := j + 1;
      assert 3 * (j - 1) + 3 == 3 * j;
    }
    var r := s[3 * j..];
    ShortEncode(r);
    if leftover == 1 {
      PutFour(out, 4 * j, [Letter(Item1(r[0])), Letter(Item2(r[0], 0)), PAD, PAD]);
    } else if leftover == 2 {
      PutFour(out, 4 * j, [Letter(Item1(r[0])), Letter(Item2(r[0], r[1])), Letter(Item3(r[1], 0)), PAD]);
    }
    assert out[..] == out[..m];
  }

  lemma ShortEncode(s: seq<byte>)
    requires |s| < 3
    ensures Encode(s)
         == if |s| == 0 then []
            else if |s| == 1 then [Letter(Item1(s[0])), Letter(Item2(s[0], 0)), PAD, PAD]
            else [Letter(Item1(s[0])), Letter(Item2(s[0], s[1])), Letter(Item3(s[1], 0)), PAD]
  {
    hide Item1, Item2, Item3, Letter;
  }

  /** `siod_base64decode`: group after group; the padding, looked at first, decides how the
      last one is read. */
  method Base64Decode(in_: seq<byte>) returns (r: Decoded)
    ensures r == Decode(UpToNul(in_))
  {
    hide Code, Chunk, LastGroup, Groups, UpToNul;
    var t := UpToNul(in_);
    var n := |t|;
    if n == 0 {
      return Octets([]);
    }
    if n % 4 != 0 {
      return IllegalLength;
    }
    var out: seq<byte>, p1 := [], t;
    GroupsAre(t);
    EmptyJoin(Groups(t));
    while |p1| > 4
      invariant |p1| > 0 && |p1| % 4 == 0 && Groups(t) == Join(Octets(out), Groups(p1))
      decreases |p1|
    {
      LessFour(|p1|);
      GroupsStep(p1[..4], p1[4..]);
      assert p1 == p1[..4] + p1[4..];
      var c := Chunk(p1[..4]);
      if !c.Octets? {
        return Nil;
      }
      JoinMore(out, c.s, Groups(p1[4..]));
      out, p1 := out + c.s, p1[4..];
    }
    LastStep(p1);
    var c := LastGroup(p1);
    if !c.Octets? {
      return Nil;
    }
    return Octets(out + c.s);
  }

  lemma GroupsAre(t: seq<byte>)
    requires |t| > 0 && |t| % 4 == 0
    ensures !Groups(t).IllegalLength?
  {
    hide Code, First, Second, Third;
  }

  lemma LastStep(t: seq<byte>)
    requires |t| == 4
    ensures Groups(t) == LastGroup(t)
  {
  }

  lemma EmptyJoin(d: Decoded)
    requires !d.IllegalLength?
    ensures Join(Octets([]), d) == d
  {
    if d.Octets? {
      assert [] + d.s == d.s;
    }
  }

  lemma JoinMore(a: seq<byte>, b: seq<byte>, d: Decoded)
    ensures Join(Octets(a), Join(Octets(b), d)) == Join(Octets(a + b), d)
  {
    if d.Octets? {
      assert a + (b + d.s) == a + b + d.s;
    }
  }

  // ---- The alphabet and the bits ----------------------------------------------------------

  /** The alphabet of RFC 4648, section 4. */
  lemma Alphabet(i: nat)
    requires i < 64
    ensures i < 26 ==> Letter(i) == 'A' as int + i
    ensures 26 <= i < 52 ==> Letter(i) == 'a' as int + (i - 26)
    ensures 52 <= i < 62 ==> Letter(i) == '0' as int + (i - 52)
    ensures Letter(62) == '+' as int && Letter(63) == '/' as int && PAD == '=' as int
  {
  }

  /** Four letters stand for the 24 bits of three octets, the first for the highest. */
  lemma BitsInOrder(x: byte, y: byte, z: byte)
    ensures Item1(x) * 0x4_0000 + Item2(x, y) * 0x1000 + Item3(y, z) * 0x40 + Item4(z) == x * 0x1_0000 + y * 0x100 + z
  {
    assert x == 4 * (x / 4) + x % 4 && y == 16 * (y / 16) + y % 16 && z == 64 * (z / 64) + z % 64;
  }

  /** Two of the examples of RFC 4648, section 10. */
  lemma Examples()
    ensures Encode(['f' as int]) == ['Z' as int, 'g' as int, '=' as int, '=' as int]
    ensures Encode(['f' as int, 'o' as int]) == ['Z' as int, 'm' as int, '8' as int, '=' as int]
    ensures Encode(['f' as int, 'o' as int, 'o' as int]) == ['Z' as int, 'm' as int, '9' as int, 'v' as int]
  {
    var s := ['f' as int, 'o' as int, 'o' as int];
    assert s[3..] == [];
    assert Encode(s) == Four(102, 111, 111) + [];
  }
}
