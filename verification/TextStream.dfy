/** The textual printer and reader as the source runs them, with loops over characters,
    one character of push-back and the token buffer; each is tied to its function in
    TextIO. */
module TextStream {
  import opened Bytes
  import opened Data
  import opened TextIO

  class TextPrinter {
    var out: seq<byte>

    constructor ()
      ensures out == []
    {
      out := [];
    }

    /** `siod_lprin1g`. */
    method Prin1(d: Form)
      requires Exact(d)
      modifies this
      ensures out == old(out) + Print(d)
      decreases Size(d), 3
    {
      match d
      case Nil =>
        out := out + [OPEN, CLOSE];
      case Cons(a, b) =>
        PrintCons(a, b);
        Prin1List(d);
      case Flonum(x) =>
        out := out + Decimal(x.n);
      case Symbol(name) =>
        out := out + UpToNul(name);
      case _ =>
        ArrayPrin1(d);
    }

    /** The cons case: the loop down the CDRs. */
    method Prin1List(d: Form)
      requires d.Cons? && Exact(d)
      modifies this
      ensures out == old(out) + Print(d)
      decreases Size(d), 2
    {
      hide Print, PrintTail;
      ghost var all := old(out) + Print(d);
      PrintCons(d.car, d.cdr);
      OneMore(out, OPEN, Print(d.car), PrintTail(d.cdr));
      out := out + [OPEN];
      Prin1(d.car);
      var tmp := d.cdr;
      while tmp.Cons?
        invariant Exact(tmp) && Size(tmp) < Size(d)
        invariant all == out + PrintTail(tmp)
        decreases tmp
      {
        PrintCons(tmp.car, tmp.cdr);
        OneMore(out, SPACE, Print(tmp.car), PrintTail(tmp.cdr));
        out := out + [SPACE];
        Prin1(tmp.car);
        tmp := tmp.cdr;
      }
      TailEnds(tmp);
      if !tmp.Nil? {
        LastOne(out, [SPACE, DOT, SPACE], Print(tmp), CLOSE);
        out := out + [SPACE, DOT, SPACE];
        Prin1(tmp);
      }
      out := out + [CLOSE];
    }

    lemma OneMore(o: seq<byte>, c: byte, p: seq<byte>, q: seq<byte>)
      ensures o + ([c] + (p + q)) == ((o + [c]) + p) + q
    {
    }

    lemma LastOne(o: seq<byte>, dot: seq<byte>, p: seq<byte>, c: byte)
      ensures o + (dot + (p + [c])) == ((o + dot) + p) + [c]
    {
    }

    lemma TailEnds(d: Form)
      requires Exact(d) && !d.Cons?
      ensures PrintTail(d) == if d.Nil? then [CLOSE] else [SPACE, DOT, SPACE] + (Print(d) + [CLOSE])
    {
      hide Print;
    }

    /** `siod_array_prin1`. */
    method ArrayPrin1(d: Form)
      requires (d.String? || d.ByteArray? || d.LispArray?) && Exact(d)
      modifies this
      ensures out == old(out) + Print(d)
      decreases Size(d), 2
    {
      hide PrintElements, Escape, Hex, Decimal, UpToNul;
      match d
      case String(bytes) =>
        out := out + [DOUBLE_QUOTE];
        StringBody(UpToNul(bytes));
        out := out + [DOUBLE_QUOTE];
      case ByteArray(bytes) =>
        out := out + [SHARP] + Decimal(|bytes|) + [DOUBLE_QUOTE];
        HexBody(bytes);
        out := out + [DOUBLE_QUOTE];
      case LispArray(elems) =>
        out := out + [SHARP, OPEN];
        Elements(elems);
        out := out + [CLOSE];
    }

    /** Both ways of printing a string: as it is when nothing needs escaping, and
        character by character when something does. */
    method StringBody(s: seq<byte>)
      modifies this
      ensures out == old(out) + Escape(s)
    {
      var plain := FindSpecial(s);
      if plain == |s| {
        NothingToEscape(s);
        out := out + s;
        return;
      }
      ghost var all := out + Escape(s);
      var j := 0;
      assert s[0..] == s;
      while j < |s|
        invariant j <= |s| && all == out + Escape(s[j..])
      {
        assert s[j..][1..] == s[j + 1..];
        assert out + (EscapeChar(s[j]) + Escape(s[j + 1..])) == out + EscapeChar(s[j]) + Escape(s[j + 1..]);
        out := out + EscapeChar(s[j]);
        j := j + 1;
      }
    }

    /** `strcspn(s, "\"\\\n\r\t")` */
    static method FindSpecial(s: seq<byte>) returns (n: nat)
      ensures n <= |s|
      ensures forall i :: 0 <= i < n ==> |EscapeChar(s[i])| == 1
      ensures n < |s| ==> |EscapeChar(s[n])| == 2
    {
      n := 0;
      while n < |s| && s[n] !in {DOUBLE_QUOTE, BACKSLASH, NEWLINE, 13, 9}
        invariant n <= |s|
        invariant forall i :: 0 <= i < n ==> |EscapeChar(s[i])| == 1
      {
        n := n + 1;
      }
    }

    method HexBody(s: seq<byte>)
      modifies this
      ensures out == old(out) + Hex(s)
    {
      ghost var all := out + Hex(s);
      var j := 0;
      assert s[0..] == s;
      while j < |s|
        invariant j <= |s| && all == out + Hex(s[j..])
      {
        assert s[j..][1..] == s[j + 1..];
        out := out + [HexDigit(s[j] / 16), HexDigit(s[j] % 16)];
        j := j + 1;
      }
    }

    method Elements(elems: seq<Form>)
      requires forall i :: 0 <= i < |elems| ==> Exact(elems[i])
      modifies this
      ensures out == old(out) + PrintElements(elems)
      decreases SizeAll(elems), 4
    {
      hide Print;
      ghost var all := out + PrintElements(elems);
      var j := 0;
      assert elems[0..] == elems;
      while j < |elems|
        invariant j <= |elems| && SizeAll(elems[j..]) <= SizeAll(elems)
        invariant all == out + PrintElements(elems[j..])
      {
        assert elems[j..][1..] == elems[j + 1..];
        ghost var o := out;
        if j + 1 < |elems| {
          PrintTwo(elems[j..]);
        }
        Prin1(elems[j]);
        if j + 1 < |elems| {
          out := out + [SPACE];
        }
        j := j + 1;
      }
    }
  }

  lemma {:induction false} NothingToEscape(s: seq<byte>)
    requires forall i :: 0 <= i < |s| ==> |EscapeChar(s[i])| == 1
    ensures Escape(s) == s
  {
    if s != [] {
      NothingToEscape(s[1..]);
    }
  }

  datatype Outcome = Value(value: Form) | Eof | Error(why: Fault)

  class TextReader {
    var input: seq<byte>

    constructor (text: seq<byte>)
      ensures input == text
    {
      input := text;
    }

    predicate Ended(r: Reading, out: Outcome)
      reads this
    {
      match r
      case Got(v, rest) => out == Value(v) && input == rest
      case Fail(why) => out == Error(why)
    }

    /** -1 stands for EOF. */
    method GetC() returns (c: int)
      modifies this
      ensures if old(input) == [] then c == -1 && input == [] else c == old(input)[0] && input == old(input)[1..]
    {
      if input == [] {
        return -1;
      }
      c := input[0];
      input := input[1..];
    }

    method UngetC(c: int)
      requires -1 <= c < 256
      modifies this
      ensures input == if c == -1 then old(input) else [c] + old(input)
    {
      if c != -1 {
        input := [c] + input;
      }
    }

    /** `siod_flush_ws`. */
    method FlushWs() returns (c: int)
      modifies this
      ensures -1 <= c < 256
      ensures var t := TextIO.FlushWs(old(input));
              if c == -1 then t == [] == input else t == [c] + input
    {
      var commentp := false;
      while true
        invariant TextIO.FlushWs(old(input)) == if commentp then FlushLine(input) else TextIO.FlushWs(input)
        decreases |input|
      {
        ghost var s := input;
        c := GetC();
        if c == -1 {
          return;
        }
        assert s == [c] + input;
        if commentp {
          if c == NEWLINE {
            commentp := false;
          }
        } else if c == SEMICOLON {
          commentp := true;
        } else if !IsSpace(c) {
          return;
        }
      }
    }

    /** `siod_readtl`. */
    method ReadTopLevel() returns (out: Outcome)
      modifies this
      ensures match ReadTop(old(input))
              case EndOfFile => out == Eof
              case Read(v, rest) => out == Value(v) && input == rest
              case Failed(why) => out == Error(why)
    {
      hide ReadForm;
      var c := FlushWs();
      if c == -1 {
        return Eof;
      }
      UngetC(c);
      out := ReadR();
    }

    /** `siod_lreadr`. */
    method ReadR() returns (out: Outcome)
      modifies this
      ensures Ended(ReadForm(old(input)), out)
      ensures out.Value? ==> |input| < |old(input)|
      decreases |input|, 0
    {
      hide ReadAtom, ReadString, Prefixed, Comma, ReadList, Sharp, TextIO.FlushWs;
      ghost var t := TextIO.FlushWs(input);
      var c := FlushWs();
      if c == -1 {
        return Error(EndInside);
      }
      assert t[1..] == input;
      if c == OPEN {
        out := ReadParen();
      } else if c == CLOSE {
        return Error(UnexpectedClose);
      } else if c == QUOTE {
        out := ReadPrefixed("quote", true);
      } else if c == BACKQUOTE {
        out := ReadPrefixed("+siod_internal-backquote", false);
      } else if c == COMMA {
        out := ReadComma();
      } else if c == DOUBLE_QUOTE {
        out := ReadQuoted();
      } else if c == SHARP {
        out := ReadSharp();
      } else {
        out := ReadTokenFrom(c);
      }
    }

    method ReadPrefixed(head: string, proper: bool) returns (out: Outcome)
      modifies this
      ensures Ended(Prefixed(head, old(input), proper), out)
      decreases |input|, 1
    {
      hide ReadForm;
      out := ReadR();
      if out.Value? {
        out := Value(Cons(Symbol(Ascii(head)), if proper then Cons(out.value, Nil) else out.value));
      }
    }

    method ReadComma() returns (out: Outcome)
      modifies this
      ensures Ended(Comma(old(input)), out)
      decreases |input|, 2
    {
      hide Prefixed;
      ghost var s := input;
      var c := GetC();
      if c == 64 {
        out := ReadPrefixed("+siod_internal-comma-atsign", false);
      } else if c == DOT {
        out := ReadPrefixed("+siod_internal-comma-dot", false);
      } else {
        UngetC(c);
        assert input == s;
        out := ReadPrefixed("+siod_internal-comma", false);
      }
    }

    /** The token loop at the end of `siod_lreadr`. */
    method ReadTokenFrom(first: byte) returns (out: Outcome)
      modifies this
      ensures Ended(ReadAtom([first] + old(input)), out)
    {
      hide ReadToken;
      ghost var s := [first] + input;
      var buffer := [first];
      assert s[1..] == input;
      while |buffer| < TKBUFFERN
        invariant 1 <= |buffer| <= TKBUFFERN && s == buffer + input
        invariant 1 + TokenEnd(s[1..]) == |buffer| + TokenEnd(input)
        decreases |input|
      {
        ghost var before := input;
        var c := GetC();
        if c == -1 {
          assert s[..|buffer|] == buffer && s[|buffer|..] == [];
          var d := LreadTk(buffer);
          return Value(d);
        }
        if IsSpace(c) {
          assert s[..|buffer|] == buffer && s[|buffer| + 1..] == input;
          var d := LreadTk(buffer);
          return Value(d);
        }
        if IsPunctuation(c) {
          UngetC(c);
          assert input == before;
          assert s[..|buffer|] == buffer && s[|buffer|..] == input;
          var d := LreadTk(buffer);
          return Value(d);
        }
        assert before == [c] + input;
        buffer := buffer + [c];
      }
      return Error(TokenTooLong);
    }

    /** `siod_lreadparen`. */
    method ReadParen() returns (out: Outcome)
      modifies this
      ensures Ended(ReadList(old(input)), out)
      decreases |input|, 1
    {
      hide ReadForm, TextIO.FlushWs;
      var c := FlushWs();
      if c == -1 {
        return Error(EndInList);
      }
      if c == CLOSE {
        return Value(Nil);
      }
      UngetC(c);
      out := ReadR();
      if out.Value? {
        var head := out.value;
        if head == Symbol([DOT]) {
          out := ReadR();
          if out.Value? {
            c := FlushWs();
            if c == -1 {
              return Error(EndInList);
            }
            if c != CLOSE {
              return Error(MissingClose);
            }
          }
        } else {
          out := ReadParen();
          if out.Value? {
            out := Value(Cons(head, out.value));
          }
        }
      }
    }

    /** `siod_lreadsharp`. */
    method ReadSharp() returns (out: Outcome)
      modifies this
      ensures Ended(Sharp(old(input)), out)
      decreases |input|, 2
    {
      hide ReadForm, ArrayOf;
      ghost var s := input;
      var c := GetC();
      if c == OPEN {
        UngetC(c);
        assert input == s;
        out := ReadR();
        if out.Value? {
          var a := ArrayOf(out.value);
          out := if a.Some? then Value(a.value) else Error(BadLength);
        }
      } else if c == DOT {
        out := ReadR();
        if out.Value? {
          out := Error(ReadTimeEval);
        }
      } else if c == 102 {
        out := Value(Nil);
      } else if c == 116 {
        out := Value(Flonum(Whole(1)));
      } else {
        out := Error(SharpSyntax);
      }
    }

    /** `siod_lreadstring`. */
    method ReadQuoted() returns (out: Outcome)
      modifies this
      ensures Ended(ReadString(old(input), 0), out)
    {
      hide Unescape;
      ghost var all := ReadString(input, 0);
      var buffer: seq<byte> := [];
      var c := GetC();
      while c != -1 && c != DOUBLE_QUOTE
        invariant -1 <= c < 256 && (c == -1 ==> input == [])
        invariant all == Prepend(buffer, ReadString(if c == -1 then [] else [c] + input, |buffer|))
        decreases if c == -1 then 0 else 1 + |input|
      {
        ghost var s := [c] + input;
        assert s[1..] == input;
        if c == BACKSLASH {
          var e := ReadEscape();
          if e.NoCharacter? {
            return Error(EndInEscape);
          }
          c := e.code;
        }
        if |buffer| + 1 >= TKBUFFERN {
          return Error(StringTooLong);
        }
        PrependMore(buffer, c, ReadString(input, |buffer| + 1));
        buffer := buffer + [c];
        ghost var rest := input;
        c := GetC();
        assert rest == if c == -1 then [] else [c] + input;
      }
      assert c == DOUBLE_QUOTE ==> ([c] + input)[1..] == input;
      assert buffer + [] == buffer;
      return Value(String(buffer));
    }

    method ReadEscape() returns (e: Character)
      modifies this
      ensures e == Unescape(old(input))
      ensures e.Character? ==> input == e.rest
    {
      hide Octal;
      var c := GetC();
      if c == -1 {
        return NoCharacter;
      }
      match c {
        case 110 => c := 10;
        case 116 => c := 9;
        case 114 => c := 13;
        case 100 => c := 4;
        case 78 => c := 0;
        case 115 => c := 32;
        case 48 =>
          e := ReadOctal();
          return;
        case _ =>
      }
      return Character(c, input);
    }

    method ReadOctal() returns (e: Character)
      modifies this
      ensures e == Octal(old(input), 0)
      ensures e.Character? ==> input == e.rest
    {
      var n := 0;
      while true
        invariant n >= 0 && Octal(input, n) == Octal(old(input), 0)
        decreases |input|
      {
        ghost var s := input;
        var c := GetC();
        if c == -1 {
          return NoCharacter;
        }
        if !IsDigit(c) {
          UngetC(c);
          assert input == s;
          return Character(n % 256, input);
        }
        n := n * 8 + (c - 48);
      }
    }
  }

  function Prepend(b: seq<byte>, r: Reading): Reading
    requires r.Got? ==> r.value.String?
  {
    if r.Got? then Got(String(b + r.value.bytes), r.rest) else r
  }

  lemma PrependMore(b: seq<byte>, c: byte, r: Reading)
    requires r.Got? ==> r.value.String?
    ensures Prepend(b + [c], r) == Prepend(b, if r.Got? then Got(String([c] + r.value.bytes), r.rest) else r)
  {
    if r.Got? {
      assert b + [c] + r.value.bytes == b + ([c] + r.value.bytes);
    }
  }

  /** The loop over digits, from position `p` on. */
  method PassDigits(name: seq<byte>, p: nat) returns (q: nat)
    requires p <= |name|
    ensures p <= q <= |name| && name[q..] == SkipDigits(name[p..])
  {
    q := p;
    while q < |name| && IsDigit(name[q])
      invariant p <= q <= |name| && SkipDigits(name[q..]) == SkipDigits(name[p..])
    {
      assert name[q..][1..] == name[q + 1..];
      q := q + 1;
    }
  }

  /** `siod_lreadtk`: whether a token is a number or a symbol. */
  method LreadTk(token: seq<byte>) returns (d: Form)
    ensures d == ReadToken(token)
  {
    hide SkipDigits, Atof, UpToNul;
    var name := UpToNul(token);
    var p := 0;
    if p < |name| && name[p] == MINUS {
      p := p + 1;
    }
    assert name[p..] == AfterMinus(name);
    var q := PassDigits(name, p);
    var adigit := q > p;
    var r := q;
    if q < |name| && name[q] == DOT {
      assert name[q..][1..] == name[q + 1..];
      r := PassDigits(name, q + 1);
      adigit := adigit || r > q + 1;
    }
    if !adigit {
      return Symbol(name);
    }
    var ok, e := PassExponent(name, r);
    if !ok || e < |name| {
      return Symbol(name);
    }
    return Flonum(Atof(name));
  }

  method PassExponent(name: seq<byte>, r: nat) returns (ok: bool, p: nat)
    requires r <= |name|
    ensures p <= |name|
    ensures SkipExponent(name[r..]) == if ok then Some(name[p..]) else None
  {
    hide SkipDigits;
    p := r;
    if p < |name| && name[p] == 101 {
      p := p + 1;
      assert name[r..][1..] == name[p..];
      if p < |name| && (name[p] == 45 || name[p] == 43) {
        assert name[p..][1..] == name[p + 1..];
        p := p + 1;
      }
      if p == |name| || !IsDigit(name[p]) {
        return false, p;
      }
      assert name[p..][1..] == name[p + 1..];
      p := PassDigits(name, p + 1);
    }
    return true, p;
  }
}
