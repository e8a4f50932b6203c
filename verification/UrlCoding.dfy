/** The URL coder (src/slibu.c:1345-1396; percent-encoding as in section 2.1 of RFC 3986,
    with a space written as a plus sign). Each way takes two passes over the C string: one
    counts, the other writes into a buffer of the size counted. */
module UrlCoding {
  import opened Bytes

  const SPACE: byte := 32
  const PERCENT: byte := 37
  const PLUS: byte := 43

  predicate IsRegular(c: byte) {
    48 <= c <= 57 || 65 <= c <= 90 || 97 <= c <= 122 || c in {42, 45, 46, 95, 64}
  }

  /** A digit of `%02X`. */
  function Hex(n: nat): byte
    requires n < 16
  {
    if n < 10 then 48 + n else 55 + n
  }

  predicate IsHex(c: byte) {
    48 <= c <= 57 || 65 <= c <= 70 || 97 <= c <= 102
  }

  function HexValue(c: byte): (v: nat)
    requires IsHex(c)
    ensures v < 16
  {
    if c <= 57 then c - 48 else if c <= 70 then c - 55 else c - 87
  }

  lemma HexBack(n: nat)
    requires n < 16
    ensures IsHex(Hex(n)) && HexValue(Hex(n)) == n
  {
  }

  // ---- What the two functions compute -----------------------------------------------

  function EncodeChar(c: byte): (e: seq<byte>)
    ensures |e| == if c == SPACE || IsRegular(c) then 1 else 3
  {
    if c == SPACE then [PLUS]
    else if IsRegular(c) then [c]
    else [PERCENT, Hex(c / 16), Hex(c % 16)]
  }

  function Encode(s: seq<byte>): seq<byte> {
    if s == [] then [] else EncodeChar(s[0]) + Encode(s[1..])
  }

  datatype Decoded = Text(s: seq<byte>) | Nil

  /** NIL when a percent sign is not followed by two hexadecimal digits. */
  function Decode(t: seq<byte>): Decoded {
    if t == [] then Text([])
    else if t[0] == PERCENT then
      if |t| < 3 || !IsHex(t[1]) || !IsHex(t[2]) then Nil
      else Prefix(HexValue(t[1]) * 16 + HexValue(t[2]), Decode(t[3..]))
    else Prefix(if t[0] == PLUS then SPACE else t[0], Decode(t[1..]))
  }

  function Prefix(c: byte, d: Decoded): Decoded {
    if d.Text? then Text([c] + d.s) else Nil
  }

  lemma EncodeCharDecodes(c: byte, rest: seq<byte>)
    ensures Decode(EncodeChar(c) + rest) == Prefix(c, Decode(rest))
  {
    var e := EncodeChar(c) + rest;
    if c == SPACE || IsRegular(c) {
      assert e[1..] == rest;
    } else {
      HexBack(c / 16);
      HexBack(c % 16);
      assert e[3..] == rest;
    }
  }

  /** Decoding undoes encoding. */
  lemma {:induction false} DecodeEncode(s: seq<byte>)
    ensures Decode(Encode(s)) == Text(s)
  {
    if s != [] {
      DecodeEncode(s[1..]);
      EncodeCharDecodes(s[0], Encode(s[1..]));
      assert [s[0]] + s[1..] == s;
    }
  }

  lemma {:induction false} EncodeKeepsNulOut(s: seq<byte>)
    requires 0 !in s
    ensures 0 !in Encode(s)
  {
    if s != [] {
      EncodeKeepsNulOut(s[1..]);
    }
  }

  // ---- The passes -----------------------------------------------------------------------

  lemma {:induction false} NothingSpecial(s: seq<byte>)
    requires forall i :: 0 <= i < |s| ==> IsRegular(s[i])
    ensures Encode(s) == s
  {
    if s != [] {
      NothingSpecial(s[1..]);
    }
  }

  lemma {:induction false} EncodeOneMore(s: seq<byte>, i: nat)
    requires i < |s|
    ensures Encode(s[..i + 1]) == Encode(s[..i]) + EncodeChar(s[i])
  {
    if i == 0 {
      assert s[..1][1..] == [];
      assert Encode(s[..1]) == EncodeChar(s[0]) + [];
    } else {
      assert s[..i + 1][1..] == s[1..][..i] && s[..i][1..] == s[1..][..i - 1];
      EncodeOneMore(s[1..], i - 1);
    }
  }

  method Put(r: array<byte>, at: nat, s: seq<byte>)
    requires at + |s| <= r.Length && |s| <= 3
    modifies r
    ensures r[..at + |s|] == old(r[..at]) + s
  {
    var j := 0;
    while j < |s|
      invariant 0 <= j <= |s| && r[..at + j] == old(r[..at]) + s[..j]
    {
      r[at + j] := s[j];
      j := j + 1;
    }
  }

  /** `siod_url_encode`: the counts of the first pass are exactly the octets the second one
      writes. */
  method UrlEncode(input: seq<byte>) returns (out: seq<byte>)
    requires 0 !in input
    ensures out == Encode(input)
  {
    hide EncodeChar, IsRegular;
    var spaces, specials, regulars := 0, 0, 0;
    var p := 0;
    while p < |input|
      invariant 0 <= p <= |input| && spaces >= 0 && specials >= 0 && regulars >= 0
      invariant spaces + regulars + 3 * specials == |Encode(input[..p])|
      invariant spaces == 0 && specials == 0 ==> forall i :: 0 <= i < p ==> IsRegular(input[i])
    {
      EncodeOneMore(input, p);
      var c := input[p];
      if c == SPACE {
        spaces := spaces + 1;
      } else if !IsRegular(c) {
        specials := specials + 1;
      } else {
        regulars := regulars + 1;
      }
      p := p + 1;
    }
    assert input[..p] == input;
    if spaces == 0 && specials == 0 {
      NothingSpecial(input);
      return input;
    }
    var r := new byte[spaces + regulars + specials * 3];
    var at := 0;
    p := 0;
    while p < |input|
      invariant 0 <= p <= |input| && r.Length == |Encode(input)|
      invariant at == |Encode(input[..p])| && at + |Encode(input[p..])| == r.Length
      invariant r[..at] == Encode(input[..p])
    {
      EncodeOneMore(input, p);
      assert input[p..][1..] == input[p + 1..];
      var e := EncodeChar(input[p]);
      Put(r, at, e);
      at := at + |e|;
      p := p + 1;
    }
    assert input[..p] == input;
    assert r[..] == r[..at];
    return r[..];
  }

  lemma {:induction false} DecodePlain(t: seq<byte>)
    requires forall i :: 0 <= i < |t| ==> t[i] != PERCENT && t[i] != PLUS
    ensures Decode(t) == Text(t)
  {
    if t != [] {
      DecodePlain(t[1..]);
      assert [t[0]] + t[1..] == t;
    }
  }

  function Percents(t: seq<byte>): nat {
    if t == [] then 0 else (if t[0] == PERCENT then 1 else 0) + Percents(t[1..])
  }

  /** What the counting pass of the decoder checks: it looks at every character, the digits
      after a percent sign too. */
  predicate Scan(t: seq<byte>) {
    t == [] || ((t[0] == PERCENT ==> |t| >= 3 && IsHex(t[1]) && IsHex(t[2])) && Scan(t[1..]))
  }

  /** Both passes accept the same texts, but the decoded text is shorter than the count by
      two for every percent sign: the first pass counts the two digits as well. */
  lemma {:induction false} ScanAndDecode(t: seq<byte>)
    ensures Scan(t) <==> Decode(t).Text?
    ensures Decode(t).Text? ==> |t| == |Decode(t).s| + 2 * Percents(t)
  {
    if t != [] {
      if t[0] == PERCENT && |t| >= 3 && IsHex(t[1]) && IsHex(t[2]) {
        assert t[1..][1..] == t[2..] && t[2..][1..] == t[3..];
        assert Scan(t[1..]) == Scan(t[2..]) == Scan(t[3..]);
        assert Percents(t) == 1 + Percents(t[1..]) && Percents(t[1..]) == Percents(t[2..]) == Percents(t[3..]);
        ScanAndDecode(t[3..]);
      } else {
        ScanAndDecode(t[1..]);
      }
    }
  }

  lemma {:induction false} PercentsZero(t: seq<byte>)
    ensures Percents(t) == 0 <==> PERCENT !in t
  {
    if t != [] {
      PercentsZero(t[1..]);
      assert t == [t[0]] + t[1..];
    }
  }

  /** So the decoder's count, which is the length of its input, is the number of octets it
      writes exactly when there is no percent sign. */
  lemma CountIsExactWhen(t: seq<byte>)
    requires Decode(t).Text?
    ensures |t| == |Decode(t).s| <==> PERCENT !in t
  {
    ScanAndDecode(t);
    PercentsZero(t);
  }

  /** The text `%41` decodes to one octet and is counted as three. */
  lemma PercentIsCountedThrice()
    ensures var t := [PERCENT, 52, 49];
            Decode(t) == Text([65]) && Scan(t) && |t| == |Decode(t).s| + 2
  {
    var t := [PERCENT, 52, 49];
    assert t[3..] == [];
    assert [65] + [] == [65 as byte];
    ScanAndDecode(t);
  }

  /** A string made by `siod_strcons`: its dimension, and its octets with room for the NUL. */
  datatype Result = Str(dim: nat, data: seq<byte>) | NoStr

  /** The first loop of `siod_url_decode`. */
  method CountPass(t: seq<byte>) returns (ok: bool, special: bool, count: nat)
    ensures ok <==> Decode(t).Text?
    ensures ok ==> count == |t| && (special <==> exists i :: 0 <= i < |t| && (t[i] == PERCENT || t[i] == PLUS))
  {
    var pluses, specials, regulars, p := 0, 0, 0, 0;
    assert t[0..] == t;
    ScanAndDecode(t);
    while p < |t|
      invariant 0 <= p <= |t| && pluses >= 0 && specials >= 0 && regulars >= 0
      invariant pluses + specials + regulars == p && (Scan(t) <==> Scan(t[p..]))
      invariant pluses + specials > 0 <==> exists i :: 0 <= i < p && (t[i] == PERCENT || t[i] == PLUS)
    {
      assert t[p..][1..] == t[p + 1..];
      if t[p] == PLUS {
        pluses := pluses + 1;
      } else if t[p] == PERCENT {
        // past the end of a C string there is its NUL, which is no digit
        if p + 2 < |t| && IsHex(t[p + 1]) && IsHex(t[p + 2]) {
          specials := specials + 1;
        } else {
          return false, false, 0;
        }
      } else {
        regulars := regulars + 1;
      }
      p := p + 1;
    }
    return true, pluses + specials > 0, regulars + pluses + specials;
  }

  lemma DecodeStep(t: seq<byte>, p: nat)
    requires p < |t| && Decode(t[p..]).Text?
    ensures var next := if t[p] == PERCENT then p + 3 else p + 1;
            && (t[p] == PERCENT ==> p + 2 < |t| && IsHex(t[p + 1]) && IsHex(t[p + 2]))
            && next <= |t| && Decode(t[next..]).Text?
            && Decode(t[p..]).s
               == [if t[p] == PLUS then SPACE
                   else if t[p] == PERCENT then HexValue(t[p + 1]) * 16 + HexValue(t[p + 2])
                   else t[p]] + Decode(t[next..]).s
  {
    var r := t[p..];
    assert r[1..] == t[p + 1..];
    if t[p] == PERCENT {
      assert r[3..] == t[p + 3..];
    }
  }

  /** `siod_url_decode`: a text without plus and percent signs is returned as it is; else
      the decoded text is written, with its NUL, at the front of a string whose dimension is
      the length of the input. */
  method UrlDecode(t: seq<byte>) returns (out: Result)
    requires 0 !in t
    ensures out.NoStr? <==> Decode(t).Nil?
    ensures out.Str? ==>
              var s := Decode(t).s;
              && out.dim == |t| && |out.data| == |t| + 1 && |s| <= |t|
              && out.data[..|s|] == s && out.data[|s|] == 0
    ensures out.Str? ==> (out.data == Decode(t).s + [0] <==> PERCENT !in t)
  {
    hide Decode, Scan, HexValue, IsHex, Percents;
    var ok, special, count := CountPass(t);
    if !ok {
      return NoStr;
    }
    ScanAndDecode(t);
    CountIsExactWhen(t);
    if !special {
      DecodePlain(t);
      return Str(|t|, t + [0]);
    }
    var r := new byte[count + 1];
    var at := WritePass(t, r);
    r[at] := 0;
    assert r[..at] == Decode(t).s;
    out := Str(count, r[..]);
    if PERCENT !in t {
      assert out.data == Decode(t).s + [0];
    }
  }

  /** Its second loop. */
  method WritePass(t: seq<byte>, r: array<byte>) returns (at: nat)
    requires Decode(t).Text? && |Decode(t).s| <= |t| < r.Length
    modifies r
    ensures at == |Decode(t).s| && r[..at] == Decode(t).s
  {
    hide Decode, HexValue, IsHex;
    at := 0;
    var p := 0;
    assert t[0..] == t;
    while p < |t|
      invariant 0 <= p <= |t| && Decode(t[p..]).Text? && at + |Decode(t[p..]).s| == |Decode(t).s|
      invariant at < r.Length && r[..at] + Decode(t[p..]).s == Decode(t).s
    {
      DecodeStep(t, p);
      var c := t[p];
      if c == PLUS {
        c := SPACE;
      } else if c == PERCENT {
        c := HexValue(t[p + 1]) * 16 + HexValue(t[p + 2]);
        p := p + 2;
      }
      p := p + 1;
      Put(r, at, [c]);
      at := at + 1;
    }
    DecodeNothing(t);
  }

  lemma DecodeNothing(t: seq<byte>)
    ensures Decode(t[|t|..]) == Text([])
  {
  }

  // ---- The characters -------------------------------------------------------------------

  /** Letters, digits and five signs stand for themselves, a space is a plus sign, and any
      other octet is a percent sign and its two hexadecimal digits, in capitals. */
  lemma Alphabet(c: byte)
    ensures IsRegular(c) <==> ('0' as int <= c <= '9' as int || 'A' as int <= c <= 'Z' as int || 'a' as int <= c <= 'z' as int
                               || c in {'*' as int, '-' as int, '.' as int, '_' as int, '@' as int})
    ensures IsRegular(c) ==> EncodeChar(c) == [c]
    ensures EncodeChar(' ' as int) == ['+' as int]
    ensures c != ' ' as int && !IsRegular(c) ==>
              EncodeChar(c) == ['%' as int, "0123456789ABCDEF"[c / 16] as int, "0123456789ABCDEF"[c % 16] as int]
  {
    HexDigits(c / 16);
    HexDigits(c % 16);
  }

  lemma HexDigits(n: nat)
    requires n < 16
    ensures Hex(n) == "0123456789ABCDEF"[n] as int
  {
  }

  /** Hexadecimal digits may be in small letters too when they are read. */
  lemma DigitValues(c: byte)
    ensures IsHex(c) <==> ('0' as int <= c <= '9' as int || 'A' as int <= c <= 'F' as int || 'a' as int <= c <= 'f' as int)
    ensures '0' as int <= c <= '9' as int ==> HexValue(c) == c - '0' as int
    ensures 'A' as int <= c <= 'F' as int ==> HexValue(c) == 10 + (c - 'A' as int)
    ensures 'a' as int <= c <= 'f' as int ==> HexValue(c) == 10 + (c - 'a' as int)
  {
  }
}
