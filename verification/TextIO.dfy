/** The printed form of data and the reader for it (src/slib.c:2033-2094, 2134-2249;
    src/sliba.c:101-170, 485-553): what is printed reads back as the same data. */
module TextIO {
  import opened Bytes
  import opened Data

  const NEWLINE: byte := 10
  const SPACE: byte := 32
  const DOUBLE_QUOTE: byte := 34
  const SHARP: byte := 35
  const QUOTE: byte := 39
  const OPEN: byte := 40
  const CLOSE: byte := 41
  const COMMA: byte := 44
  const MINUS: byte := 45
  const DOT: byte := 46
  const SEMICOLON: byte := 59
  const BACKSLASH: byte := 92
  const BACKQUOTE: byte := 96
  const TKBUFFERN := 5120
  /** Every integer up to here is a double; beyond, those with zeros enough at the end. */
  const LAST_EXACT := 0x20_0000_0000_0000
  const MOST_HALVINGS := 971

  /** A double: a whole number the format holds exactly, or the one `atof` makes of some
      other text. */
  datatype Number = Whole(n: int) | Literal(text: seq<byte>)

  type Form = Datum<Number>

  /** A whole number of 53 significant bits, `e` of the zeros after which may be dropped. */
  predicate Representable(v: int, e: nat) {
    v < LAST_EXACT || (e > 0 && v % 2 == 0 && Representable(v / 2, e - 1))
  }

  /** The whole number `n` is a double. */
  predicate IsDouble(n: int) {
    Representable(if n < 0 then -n else n, MOST_HALVINGS)
  }

  predicate IsSpace(c: byte) {
    c == SPACE || 9 <= c <= 13
  }

  predicate IsDigit(c: byte) {
    48 <= c <= 57
  }

  /** Ends a token without being swallowed; NUL is in every C string's `strchr`. */
  predicate IsPunctuation(c: byte) {
    c in {OPEN, CLOSE, QUOTE, BACKQUOTE, COMMA, SEMICOLON, DOUBLE_QUOTE, 0}
  }

  // ---- Printing -----------------------------------------------------------------

  function Digits(n: nat): (s: seq<byte>)
    ensures s != []
    ensures forall i :: 0 <= i < |s| ==> IsDigit(s[i])
  {
    if n < 10 then [48 + n] else Digits(n / 10) + [48 + n % 10]
  }

  /** `%ld` */
  function Decimal(n: int): seq<byte> {
    if n < 0 then [MINUS] + Digits(-n) else Digits(n)
  }

  function EscapeChar(c: byte): seq<byte> {
    if c == BACKSLASH || c == DOUBLE_QUOTE then [BACKSLASH, c]
    else if c == NEWLINE then [BACKSLASH, 110]
    else if c == 13 then [BACKSLASH, 114]
    else if c == 9 then [BACKSLASH, 116]
    else [c]
  }

  function Escape(s: seq<byte>): seq<byte> {
    if s == [] then [] else EscapeChar(s[0]) + Escape(s[1..])
  }

  function HexDigit(n: nat): byte
    requires n < 16
  {
    if n < 10 then 48 + n else 87 + n
  }

  function Hex(s: seq<byte>): seq<byte> {
    if s == [] then [] else [HexDigit(s[0] / 16), HexDigit(s[0] % 16)] + Hex(s[1..])
  }

  /** Numbers that print with `%ld`; the others go through `%g`. */
  predicate Exact(d: Form) {
    match d
    case Cons(a, b) => Exact(a) && Exact(b)
    case Flonum(x) => x.Whole? && -TWO_63 <= x.n < TWO_63
    case LispArray(elems) => forall i :: 0 <= i < |elems| ==> Exact(elems[i])
    case _ => true
  }

  function Print(d: Form): seq<byte>
    requires Exact(d)
    decreases Size(d), 0
  {
    match d
    case Nil => [OPEN, CLOSE]
    case Cons(a, b) => [OPEN] + Print(a) + PrintTail(b)
    case Flonum(x) => Decimal(x.n)
    case Symbol(name) => UpToNul(name)
    case String(bytes) => [DOUBLE_QUOTE] + Escape(UpToNul(bytes)) + [DOUBLE_QUOTE]
    case ByteArray(bytes) => [SHARP] + Decimal(|bytes|) + [DOUBLE_QUOTE] + Hex(bytes) + [DOUBLE_QUOTE]
    case LispArray(elems) => [SHARP, OPEN] + PrintElements(elems) + [CLOSE]
  }

  /** The rest of a list, after its first element. */
  function PrintTail(d: Form): seq<byte>
    requires Exact(d)
    decreases Size(d), 1
  {
    match d
    case Nil => [CLOSE]
    case Cons(a, b) => [SPACE] + Print(a) + PrintTail(b)
    case _ => [SPACE, DOT, SPACE] + Print(d) + [CLOSE]
  }

  /** Elements with single spaces between them. */
  function PrintElements(s: seq<Form>): seq<byte>
    requires forall i :: 0 <= i < |s| ==> Exact(s[i])
    decreases SizeAll(s), 2
  {
    if s == [] then []
    else if |s| == 1 then Print(s[0])
    else Print(s[0]) + [SPACE] + PrintElements(s[1..])
  }

  // ---- Reading --------------------------------------------------------------------

  datatype Fault =
    | EndInside | EndInList | UnexpectedClose | MissingClose | TokenTooLong
    | EndInEscape | StringTooLong | SharpSyntax | ReadTimeEval | BadLength

  datatype Reading = Got(value: Form, rest: seq<byte>) | Fail(why: Fault)

  datatype TopLevel = Read(value: Form, rest: seq<byte>) | EndOfFile | Failed(why: Fault)

  /** Past white space and comments, up to the next character that matters. */
  function FlushWs(s: seq<byte>): (r: seq<byte>)
    ensures |r| <= |s|
    ensures r != [] ==> !IsSpace(r[0]) && r[0] != SEMICOLON
    decreases |s|, 0
  {
    if s == [] then s
    else if s[0] == SEMICOLON then FlushLine(s[1..])
    else if IsSpace(s[0]) then FlushWs(s[1..])
    else s
  }

  function FlushLine(s: seq<byte>): (r: seq<byte>)
    ensures |r| <= |s|
    ensures r != [] ==> !IsSpace(r[0]) && r[0] != SEMICOLON
    decreases |s|, 1
  {
    if s == [] then s
    else if s[0] == NEWLINE then FlushWs(s[1..])
    else FlushLine(s[1..])
  }

  function SkipDigits(s: seq<byte>): (r: seq<byte>)
    ensures |r| <= |s|
    ensures r != [] ==> !IsDigit(r[0])
  {
    if s != [] && IsDigit(s[0]) then SkipDigits(s[1..]) else s
  }

  function DigitsValue(s: seq<byte>): int {
    if s == [] then 0 else 10 * DigitsValue(s[..|s| - 1]) + ((s[|s| - 1] as int) - 48)
  }

  /** Past an exponent, or nothing when what follows the `e` is not one. */
  function SkipExponent(s: seq<byte>): Option<seq<byte>> {
    if s == [] || s[0] != 101 then Some(s)
    else
      var p := s[1..];
      var q := if p != [] && (p[0] == 45 || p[0] == 43) then p[1..] else p;
      if q == [] || !IsDigit(q[0]) then None else Some(SkipDigits(q[1..]))
  }

  function AfterMinus(token: seq<byte>): seq<byte> {
    if token != [] && token[0] == MINUS then token[1..] else token
  }

  /** The rules for digits, point and exponent in `siod_lreadtk`. */
  predicate IsNumber(token: seq<byte>) {
    var p := AfterMinus(token);
    var q := SkipDigits(p);
    var r := if q != [] && q[0] == DOT then SkipDigits(q[1..]) else q;
    (|q| < |p| || (q != [] && q[0] == DOT && |r| < |q| - 1)) && SkipExponent(r) == Some([])
  }

  /** What `atof` makes of a number. */
  function Atof(token: seq<byte>): Number {
    var p := AfterMinus(token);
    var v := DigitsValue(p);
    if SkipDigits(p) != [] || !IsDouble(v) then Literal(token)
    else Whole(if |p| < |token| then -v else v)
  }

  /** The number a token spells, or nothing when it is a symbol. */
  function Lex(token: seq<byte>): Option<Number> {
    if IsNumber(token) then Some(Atof(token)) else None
  }

  function ReadToken(token: seq<byte>): Form {
    var name := UpToNul(token);
    var n := Lex(name);
    if n.Some? then Flonum(n.value) else Symbol(name)
  }

  /** The characters of the token under way, up to what ends it. */
  function TokenEnd(s: seq<byte>): (n: nat)
    ensures n <= |s|
    ensures n < |s| ==> IsSpace(s[n]) || IsPunctuation(s[n])
  {
    if s == [] || IsSpace(s[0]) || IsPunctuation(s[0]) then 0 else 1 + TokenEnd(s[1..])
  }

  /** A token is read from a first character that is always part of it. */
  function ReadAtom(s: seq<byte>): (r: Reading)
    requires s != []
    ensures r.Got? ==> |r.rest| < |s|
  {
    var n := 1 + TokenEnd(s[1..]);
    if n >= TKBUFFERN then Fail(TokenTooLong)
    else
      var rest := if n < |s| && IsSpace(s[n]) then s[n + 1..] else s[n..];
      Got(ReadToken(s[..n]), rest)
  }

  datatype Character = Character(code: byte, rest: seq<byte>) | NoCharacter

  function Octal(s: seq<byte>, n: nat): (c: Character)
    ensures c.Character? ==> |c.rest| <= |s|
  {
    if s == [] then NoCharacter
    else if IsDigit(s[0]) then Octal(s[1..], n * 8 + (s[0] - 48))
    else Character(n % 256, s)
  }

  /** What follows a backslash. */
  function Unescape(s: seq<byte>): (c: Character)
    ensures c.Character? ==> |c.rest| < |s|
  {
    if s == [] then NoCharacter
    else
      var c, rest := s[0], s[1..];
      if c == 110 then Character(10, rest)
      else if c == 116 then Character(9, rest)
      else if c == 114 then Character(13, rest)
      else if c == 100 then Character(4, rest)
      else if c == 78 then Character(0, rest)
      else if c == 115 then Character(32, rest)
      else if c == 48 then Octal(rest, 0)
      else Character(c, rest)
  }

  /** The inside of a string literal, `j` characters of which are in the buffer already.
      End of file closes it. */
  function ReadString(s: seq<byte>, j: nat): (r: Reading)
    ensures r.Got? ==> r.value.String? && |r.rest| <= |s|
    decreases |s|
  {
    if s == [] then Got(String([]), [])
    else if s[0] == DOUBLE_QUOTE then Got(String([]), s[1..])
    else
      var c := if s[0] == BACKSLASH then Unescape(s[1..]) else Character(s[0], s[1..]);
      if c.NoCharacter? then Fail(EndInEscape)
      else if j + 1 >= TKBUFFERN then Fail(StringTooLong)
      else
        var r := ReadString(c.rest, j + 1);
        if r.Got? then Got(String([c.code] + r.value.bytes), r.rest) else r
  }

  /** The vector made of what was read after `#`. */
  function ArrayOf(list: Form): Option<Form> {
    match list
    case Nil => Some(LispArray([]))
    case Cons(_, _) => if SpineEnd(list).Nil? then Some(LispArray(Spine(list))) else None
    case String(bytes) => if UpToNul(bytes) == [] then Some(LispArray([])) else None
    case LispArray(elems) => if elems == [] then Some(LispArray([])) else None
    case _ => None
  }

  function Sharp(s: seq<byte>): (r: Reading)
    ensures r.Got? ==> |r.rest| <= |s|
    decreases |s|, 2
  {
    if s == [] then Fail(SharpSyntax)
    else if s[0] == OPEN then
      var r := ReadForm(s);
      if r.Fail? then r
      else
        var a := ArrayOf(r.value);
        if a.Some? then Got(a.value, r.rest) else Fail(BadLength)
    else if s[0] == DOT then
      var r := ReadForm(s[1..]);
      if r.Fail? then r else Fail(ReadTimeEval)
    else if s[0] == 102 then Got(Nil, s[1..])
    else if s[0] == 116 then Got(Flonum(Whole(1)), s[1..])
    else Fail(SharpSyntax)
  }

  function Prefixed(head: string, s: seq<byte>, proper: bool): (r: Reading)
    ensures r.Got? ==> |r.rest| < |s|
    decreases |s|, 1
  {
    var r := ReadForm(s);
    if r.Fail? then r
    else Got(Cons(Symbol(Ascii(head)), if proper then Cons(r.value, Nil) else r.value), r.rest)
  }

  function Comma(s: seq<byte>): (r: Reading)
    ensures r.Got? ==> |r.rest| <= |s|
    decreases |s|, 2
  {
    if s != [] && s[0] == 64 then Prefixed("+siod_internal-comma-atsign", s[1..], false)
    else if s != [] && s[0] == DOT then Prefixed("+siod_internal-comma-dot", s[1..], false)
    else Prefixed("+siod_internal-comma", s, false)
  }

  /** `siod_lreadr`: one form. */
  function ReadForm(s: seq<byte>): (r: Reading)
    ensures r.Got? ==> |r.rest| < |s|
    decreases |s|, 0
  {
    var t := FlushWs(s);
    if t == [] then Fail(EndInside)
    else if t[0] == OPEN then ReadList(t[1..])
    else if t[0] == CLOSE then Fail(UnexpectedClose)
    else if t[0] == QUOTE then Prefixed("quote", t[1..], true)
    else if t[0] == BACKQUOTE then Prefixed("+siod_internal-backquote", t[1..], false)
    else if t[0] == COMMA then Comma(t[1..])
    else if t[0] == DOUBLE_QUOTE then ReadString(t[1..], 0)
    else if t[0] == SHARP then Sharp(t[1..])
    else ReadAtom(t)
  }

  /** `siod_lreadparen`: the rest of a list. */
  function ReadList(s: seq<byte>): (r: Reading)
    ensures r.Got? ==> |r.rest| < |s|
    decreases |s|, 1
  {
    var t := FlushWs(s);
    if t == [] then Fail(EndInList)
    else if t[0] == CLOSE then Got(Nil, t[1..])
    else
      var head := ReadForm(t);
      if head.Fail? then head
      else if head.value == Symbol([DOT]) then
        var tail := ReadForm(head.rest);
        if tail.Fail? then tail
        else
          var u := FlushWs(tail.rest);
          if u == [] then Fail(EndInList)
          else if u[0] != CLOSE then Fail(MissingClose)
          else Got(tail.value, u[1..])
      else
        var tail := ReadList(head.rest);
        if tail.Fail? then tail else Got(Cons(head.value, tail.value), tail.rest)
  }

  /** `siod_readtl`: one form at top level, or end of file. */
  function ReadTop(s: seq<byte>): TopLevel {
    var t := FlushWs(s);
    if t == [] then EndOfFile
    else
      var r := ReadForm(t);
      if r.Got? then Read(r.value, r.rest) else Failed(r.why)
  }

  // ---- Tokens ---------------------------------------------------------------------

  predicate Boundary(s: seq<byte>) {
    s == [] || IsSpace(s[0]) || IsPunctuation(s[0])
  }

  predicate Unbroken(s: seq<byte>) {
    forall i :: 0 <= i < |s| ==> !IsSpace(s[i]) && !IsPunctuation(s[i])
  }

  /** A token swallows one white-space character after it. */
  function AfterToken(rest: seq<byte>): seq<byte> {
    if rest != [] && IsSpace(rest[0]) then rest[1..] else rest
  }

  lemma {:induction false} TokenEndsAt(s: seq<byte>, rest: seq<byte>)
    requires Unbroken(s) && Boundary(rest)
    ensures TokenEnd(s + rest) == |s|
  {
    if s == [] {
      assert s + rest == rest;
    } else {
      assert (s + rest)[0] == s[0];
      assert (s + rest)[1..] == s[1..] + rest;
      TokenEndsAt(s[1..], rest);
    }
  }

  lemma TokenReads(token: seq<byte>, rest: seq<byte>)
    requires 0 < |token| < TKBUFFERN && Unbroken(token) && token[0] != SHARP && Boundary(rest)
    ensures ReadForm(token + rest) == Got(ReadToken(token), AfterToken(rest))
  {
    hide ReadToken, Lex;
    var s := token + rest;
    assert s[0] == token[0];
    assert s[1..] == token[1..] + rest;
    TokenEndsAt(token[1..], rest);
    assert s[..|token|] == token;
    assert s[|token|..] == rest;
    assert FlushWs(s) == s;
    if |token| < |s| && IsSpace(s[|token|]) {
      assert s[|token| + 1..] == rest[1..];
    }
  }

  lemma {:induction false} DigitsLex(s: seq<byte>)
    requires forall i :: 0 <= i < |s| ==> IsDigit(s[i])
    ensures SkipDigits(s) == []
  {
    if s != [] {
      DigitsLex(s[1..]);
    }
  }

  lemma {:induction false} DigitsDenote(n: nat)
    ensures DigitsValue(Digits(n)) == n
  {
    if n < 10 {
      assert Digits(n)[..0] == [];
    } else {
      DigitsDenote(n / 10);
      assert Digits(n)[..|Digits(n)| - 1] == Digits(n / 10);
    }
  }

  function Pow10(k: nat): nat {
    if k == 0 then 1 else 10 * Pow10(k - 1)
  }

  lemma {:induction false} DigitsShort(n: nat, k: nat)
    requires k > 0 && n < Pow10(k)
    ensures |Digits(n)| <= k
  {
    if n >= 10 {
      assert k > 1 by { assert Pow10(1) == 10; }
      DigitsShort(n / 10, k - 1);
    }
  }

  lemma Pow10Of19()
    ensures TWO_63 < Pow10(19)
  {
    assert Pow10(4) == 10000;
    assert Pow10(8) == 10000_0000;
    assert Pow10(12) == 10000_0000_0000;
    assert Pow10(16) == 10000_0000_0000_0000;
  }

  lemma UnbrokenDecimal(n: int)
    ensures Unbroken(Decimal(n)) && Decimal(n)[0] != SHARP
    ensures 0 !in Decimal(n)
  {
    var d := Digits(if n < 0 then -n else n);
    assert forall i :: 0 <= i < |d| ==> IsDigit(d[i]);
  }

  /** A token of digits, perhaps after a minus sign, is a whole number. */
  lemma WholeLexes(d: seq<byte>, negative: bool)
    requires d != [] && IsDigit(d[0]) && SkipDigits(d) == [] && DigitsValue(d) >= 0 && IsDouble(DigitsValue(d))
    ensures Lex(if negative then [MINUS] + d else d)
            == Some(Whole(if negative then -DigitsValue(d) else DigitsValue(d)))
  {
    hide SkipDigits, DigitsValue, Representable;
    var token := if negative then [MINUS] + d else d;
    assert SkipExponent([]) == Some([]);
    if negative {
      assert token[1..] == d;
    }
  }

  /** What `%ld` prints for a double, the lexer reads as the same number. */
  lemma DecimalLexes(n: int)
    requires -TWO_63 <= n < TWO_63 && IsDouble(n)
    ensures 0 < |Decimal(n)| < TKBUFFERN
    ensures ReadToken(Decimal(n)) == Flonum(Whole(n))
  {
    hide UpToNul, SkipDigits, DigitsValue, Digits, Lex, Pow10, Representable;
    var m: nat := if n < 0 then -n else n;
    Pow10Of19();
    DigitsShort(m, 19);
    DigitsLex(Digits(m));
    DigitsDenote(m);
    WholeLexes(Digits(m), n < 0);
    UnbrokenDecimal(n);
    NoNulName(Decimal(n));
  }

  // ---- Strings --------------------------------------------------------------------

  lemma OneCharacter(c: byte, rest: seq<byte>)
    ensures var s := EscapeChar(c) + rest;
            && s[0] != DOUBLE_QUOTE
            && (if s[0] == BACKSLASH then Unescape(s[1..]) else Character(s[0], s[1..])) == Character(c, rest)
  {
    var s := EscapeChar(c) + rest;
    if |EscapeChar(c)| == 2 {
      assert s[1..][1..] == rest;
    } else {
      assert s[1..] == rest;
    }
  }

  /** Escaping is undone, as long as the characters fit the buffer. */
  lemma {:induction false} StringReads(b: seq<byte>, j: nat, rest: seq<byte>)
    requires j < TKBUFFERN
    ensures ReadString(Escape(b) + [DOUBLE_QUOTE] + rest, j)
            == if j + |b| < TKBUFFERN then Got(String(b), rest) else Fail(StringTooLong)
  {
    hide Unescape, EscapeChar;
    if b == [] {
      assert Escape(b) + [DOUBLE_QUOTE] + rest == [DOUBLE_QUOTE] + rest;
    } else {
      var more := Escape(b[1..]) + [DOUBLE_QUOTE] + rest;
      OneCharacter(b[0], more);
      assert Escape(b) + [DOUBLE_QUOTE] + rest == EscapeChar(b[0]) + more;
      if j + 1 < TKBUFFERN {
        StringReads(b[1..], j + 1, rest);
        assert [b[0]] + b[1..] == b;
      }
    }
  }

  // ---- Reading undoes printing ------------------------------------------------------

  /** Names that lex as symbols. */
  predicate SymbolText(name: seq<byte>) {
    0 < |name| < TKBUFFERN && Unbroken(name) && name[0] != SHARP && Lex(name).None?
  }

  /** Data with a printed form that can be read back. */
  predicate Readable(d: Form) {
    match d
    case Cons(a, b) => Readable(a) && Readable(b)
    case Flonum(x) => x.Whole? && IsDouble(x.n)
    case Symbol(name) => SymbolText(name) && name != [DOT]
    case String(bytes) => 0 !in bytes && |bytes| < TKBUFFERN
    case LispArray(elems) => ReadableAll(elems)
    case ByteArray(_) => false
    case Nil => true
  }

  predicate ReadableAll(s: seq<Form>) {
    forall i :: 0 <= i < |s| ==> Readable(s[i])
  }

  predicate IsToken(d: Form) {
    d.Flonum? || d.Symbol?
  }

  function AfterForm(d: Form, rest: seq<byte>): seq<byte> {
    if IsToken(d) then AfterToken(rest) else rest
  }

  lemma {:induction false} UnbrokenNoNul(s: seq<byte>)
    requires Unbroken(s)
    ensures UpToNul(s) == s
  {
    if s != [] {
      UnbrokenNoNul(s[1..]);
    }
  }

  /** A printed form begins with a character that `siod_flush_ws` stops at. */
  lemma PrintStarts(d: Form, rest: seq<byte>)
    requires Exact(d) && Readable(d)
    ensures Print(d) != [] && Print(d)[0] != CLOSE && FlushWs(Print(d) + rest) == Print(d) + rest
  {
    if d.Flonum? {
      UnbrokenDecimal(d.value.n);
      assert !IsSpace(Print(d)[0]) && !IsPunctuation(Print(d)[0]);
    } else if d.Symbol? {
      UnbrokenNoNul(d.name);
      assert !IsSpace(d.name[0]) && !IsPunctuation(d.name[0]);
    }
    assert (Print(d) + rest)[0] == Print(d)[0];
  }

  lemma SpaceSkipped(s: seq<byte>)
    ensures ReadList([SPACE] + s) == ReadList(s)
  {
    assert ([SPACE] + s)[1..] == s;
  }

  lemma NumberReads(x: Number, rest: seq<byte>)
    requires x.Whole? && IsDouble(x.n) && -TWO_63 <= x.n < TWO_63 && Boundary(rest)
    ensures ReadForm(Decimal(x.n) + rest) == Got(Flonum(x), AfterToken(rest))
  {
    hide ReadForm, ReadToken, IsDouble;
    UnbrokenDecimal(x.n);
    DecimalLexes(x.n);
    TokenReads(Decimal(x.n), rest);
  }

  lemma SymbolReads(name: seq<byte>, rest: seq<byte>)
    requires SymbolText(name) && Boundary(rest)
    ensures ReadForm(UpToNul(name) + rest) == Got(Symbol(name), AfterToken(rest))
  {
    hide ReadForm, Lex;
    UnbrokenNoNul(name);
    TokenReads(name, rest);
  }

  lemma QuoteReads(s: seq<byte>)
    ensures ReadForm([DOUBLE_QUOTE] + s) == ReadString(s, 0)
  {
    hide ReadString, Sharp, ReadList, Prefixed, Comma, ReadAtom;
    assert ([DOUBLE_QUOTE] + s)[1..] == s;
  }

  lemma QuotedReads(b: seq<byte>, rest: seq<byte>)
    ensures ReadForm([DOUBLE_QUOTE] + Escape(b) + [DOUBLE_QUOTE] + rest)
            == if |b| < TKBUFFERN then Got(String(b), rest) else Fail(StringTooLong)
  {
    hide ReadForm, Escape, ReadString;
    StringReads(b, 0, rest);
    var s := Escape(b) + [DOUBLE_QUOTE] + rest;
    QuoteReads(s);
    assert [DOUBLE_QUOTE] + s == [DOUBLE_QUOTE] + Escape(b) + [DOUBLE_QUOTE] + rest;
  }

  lemma OpenReads(s: seq<byte>)
    ensures ReadForm([OPEN] + s) == ReadList(s)
  {
    hide ReadString, Sharp, ReadList, Prefixed, Comma, ReadAtom;
    assert ([OPEN] + s)[1..] == s;
  }

  lemma SharpReads(s: seq<byte>)
    ensures ReadForm([SHARP] + s) == Sharp(s)
  {
    hide ReadString, Sharp, ReadList, Prefixed, Comma, ReadAtom;
    assert ([SHARP] + s)[1..] == s;
  }

  lemma CloseReads(rest: seq<byte>)
    ensures ReadList([CLOSE] + rest) == Got(Nil, rest)
  {
    assert ([CLOSE] + rest)[1..] == rest;
  }

  lemma ElementReads(a: Form, s: seq<byte>, more: seq<byte>, b: Form, rest: seq<byte>)
    requires FlushWs(s) == s != [] && s[0] != CLOSE && ReadForm(s) == Got(a, AfterForm(a, more))
    requires a != Symbol([DOT]) && ReadList(more) == Got(b, rest)
    requires more != [] && IsSpace(more[0]) ==> more[0] == SPACE
    ensures ReadList(s) == Got(Cons(a, b), rest)
  {
    hide ReadForm;
    if more != [] && IsSpace(more[0]) {
      SpaceSkipped(more[1..]);
      assert [SPACE] + more[1..] == more;
    }
  }

  lemma DotPair(t: seq<byte>, s: seq<byte>, b: Form, rest: seq<byte>)
    requires FlushWs(t) == t != [] && t[0] != CLOSE && ReadForm(t) == Got(Symbol([DOT]), s)
    requires ReadForm(s) == Got(b, [CLOSE] + rest)
    ensures ReadList(t) == Got(b, rest)
  {
    hide ReadForm;
    assert ([CLOSE] + rest)[1..] == rest;
  }

  lemma DotIsSymbol()
    ensures ReadToken([DOT]) == Symbol([DOT])
  {
    NoNulName([DOT]);
    assert [DOT][1..] == [];
  }

  lemma DotReads(s: seq<byte>, b: Form, rest: seq<byte>)
    requires ReadForm(s) == Got(b, [CLOSE] + rest)
    ensures ReadList([SPACE, DOT, SPACE] + s) == Got(b, rest)
  {
    hide ReadForm, ReadList, ReadToken;
    var t := [DOT] + ([SPACE] + s);
    DotIsSymbol();
    TokenReads([DOT], [SPACE] + s);
    assert AfterToken([SPACE] + s) == s;
    DotPair(t, s, b, rest);
    SpaceSkipped(t);
    assert [SPACE] + t == [SPACE, DOT, SPACE] + s;
  }

  lemma TokenDatum(d: Form, rest: seq<byte>)
    requires Exact(d) && Readable(d) && (!d.Cons? && !d.LispArray?)
    requires IsToken(d) ==> Boundary(rest)
    ensures ReadForm(Print(d) + rest) == Got(d, AfterForm(d, rest))
  {
    hide ReadForm, Decimal, Escape, IsDouble;
    match d
    case Nil =>
      assert [OPEN, CLOSE] + rest == [OPEN] + ([CLOSE] + rest);
      OpenReads([CLOSE] + rest);
      CloseReads(rest);
    case Flonum(x) =>
      NumberReads(x, rest);
    case Symbol(name) =>
      SymbolReads(name, rest);
    case String(bytes) =>
      NoNulName(bytes);
      QuotedReads(bytes, rest);
  }

  lemma PrintCons(a: Form, b: Form)
    requires Exact(a) && Exact(b)
    ensures Print(Cons(a, b)) == [OPEN] + (Print(a) + PrintTail(b))
    ensures PrintTail(Cons(a, b)) == [SPACE] + (Print(a) + PrintTail(b))
  {
    hide Decimal, Escape, PrintElements;
  }

  lemma PrintTwo(s: seq<Form>)
    requires |s| > 1 && forall i :: 0 <= i < |s| ==> Exact(s[i])
    ensures PrintElements(s) == Print(s[0]) + ([SPACE] + PrintElements(s[1..]))
  {
    hide Print;
  }

  /** A lisp array prints as the list of its elements would, after a sharp sign. */
  lemma {:induction false} ElementsPrintAsList(s: seq<Form>)
    requires s != [] && forall i :: 0 <= i < |s| ==> Exact(s[i])
    ensures Exact(FromSpine(s[1..], Nil))
    ensures PrintElements(s) + [CLOSE] == Print(s[0]) + PrintTail(FromSpine(s[1..], Nil))
  {
    if |s| == 1 {
      assert PrintTail(Nil) == [CLOSE];
    } else {
      hide Print, PrintTail, PrintElements;
      ElementsPrintAsList(s[1..]);
      PrintTwo(s);
      var t := FromSpine(s[1..][1..], Nil);
      PrintCons(s[1], t);
      var p, q := Print(s[0]), PrintElements(s[1..]);
      assert (p + ([SPACE] + q)) + [CLOSE] == p + ([SPACE] + (q + [CLOSE]));
    }
  }

  lemma ArrayPrintsAsList(elems: seq<Form>)
    requires Exact(LispArray(elems))
    ensures Exact(FromSpine(elems, Nil))
    ensures Print(LispArray(elems)) == [SHARP] + Print(FromSpine(elems, Nil))
  {
    hide Print, PrintTail, PrintElements;
    PrintArray(elems);
    if elems == [] {
      PrintNothing();
    } else {
      ElementsPrintAsList(elems);
      PrintCons(elems[0], FromSpine(elems[1..], Nil));
      var q := PrintElements(elems);
      assert [SHARP, OPEN] + q + [CLOSE] == [SHARP] + ([OPEN] + (q + [CLOSE]));
    }
  }

  lemma PrintArray(elems: seq<Form>)
    requires Exact(LispArray(elems))
    ensures Print(LispArray(elems)) == [SHARP, OPEN] + PrintElements(elems) + [CLOSE]
  {
    hide PrintElements;
  }

  lemma PrintNothing()
    ensures PrintElements([]) == [] && Print(Nil) == [OPEN, CLOSE]
  {
  }

  lemma {:induction false} ReadableList(s: seq<Form>)
    requires ReadableAll(s)
    ensures Readable(FromSpine(s, Nil))
  {
    hide Readable;
    if s != [] {
      assert Readable(s[0]);
      ReadableList(s[1..]);
    }
    ReadableNilCons();
  }

  lemma ReadableNilCons()
    ensures Readable(Nil)
    ensures forall a: Form, b: Form :: Readable(a) && Readable(b) ==> Readable(Cons(a, b))
  {
  }

  lemma ListStarts(list: Form)
    requires Exact(list) && (list.Nil? || list.Cons?)
    ensures Print(list) != [] && Print(list)[0] == OPEN
  {
  }

  lemma SharpListReads(s: seq<byte>, list: Form, rest: seq<byte>)
    requires s != [] && s[0] == OPEN && ReadForm(s) == Got(list, rest) && SpineEnd(list).Nil?
    ensures Sharp(s) == Got(LispArray(Spine(list)), rest)
  {
    hide ReadForm;
  }

  /** The main theorem: what is printed reads back as the same data, and reading stops
      right after it, or after the one white-space character that ends a token. */
  lemma {:induction false} ReadsBack(d: Form, rest: seq<byte>)
    requires Exact(d) && Readable(d)
    requires IsToken(d) ==> Boundary(rest)
    ensures ReadForm(Print(d) + rest) == Got(d, AfterForm(d, rest))
    decreases Size(d), 0
  {
    hide ReadForm, ReadList, Sharp, Print, PrintTail;
    if d.Cons? {
      ConsReads(d.car, d.cdr, rest);
      PrintCons(d.car, d.cdr);
      var s := Print(d.car) + (PrintTail(d.cdr) + rest);
      OpenReads(s);
      assert Print(d) + rest == [OPEN] + s;
    } else if d.LispArray? {
      ArrayPrintsAsList(d.elems);
      SizeOfList(d.elems);
      ReadableList(d.elems);
      var list := FromSpine(d.elems, Nil);
      ReadsBack(list, rest);
      var s := Print(list) + rest;
      ListStarts(list);
      SharpListReads(s, list, rest);
      SharpReads(s);
      assert Print(d) + rest == [SHARP] + s;
    } else {
      TokenDatum(d, rest);
    }
  }

  lemma {:induction false} ConsReads(a: Form, b: Form, rest: seq<byte>)
    requires Exact(a) && Readable(a) && Exact(b) && Readable(b)
    ensures ReadList(Print(a) + (PrintTail(b) + rest)) == Got(Cons(a, b), rest)
    decreases Size(a) + Size(b), 2
  {
    hide ReadForm, ReadList, Print, PrintTail, FlushWs;
    var more := PrintTail(b) + rest;
    TailStarts(b, rest);
    PrintStarts(a, more);
    ReadsBack(a, more);
    TailReads(b, rest);
    ElementReads(a, Print(a) + more, more, b, rest);
  }

  lemma TailStarts(b: Form, rest: seq<byte>)
    requires Exact(b)
    ensures var more := PrintTail(b) + rest;
            more != [] && (more[0] == SPACE || more[0] == CLOSE) && Boundary(more)
  {
  }

  lemma TailParts(b: Form)
    requires Exact(b)
    ensures b.Nil? ==> PrintTail(b) == [CLOSE]
    ensures b.Cons? ==> Exact(b.car) && Exact(b.cdr) && PrintTail(b) == [SPACE] + (Print(b.car) + PrintTail(b.cdr))
    ensures !b.Nil? && !b.Cons? ==> PrintTail(b) == [SPACE, DOT, SPACE] + Print(b) + [CLOSE]
  {
    hide Print;
  }

  lemma {:induction false} TailReads(b: Form, rest: seq<byte>)
    requires Exact(b) && Readable(b)
    ensures ReadList(PrintTail(b) + rest) == Got(b, rest)
    decreases Size(b), 1
  {
    hide ReadForm, ReadList, Print, PrintTail, Exact;
    TailParts(b);
    if b.Nil? {
      CloseReads(rest);
    } else if b.Cons? {
      var s := Print(b.car) + (PrintTail(b.cdr) + rest);
      ConsReads(b.car, b.cdr, rest);
      SpaceSkipped(s);
      assert PrintTail(b) + rest == [SPACE] + s;
    } else {
      hide Readable;
      var s := Print(b) + ([CLOSE] + rest);
      ReadsBack(b, [CLOSE] + rest);
      DotReads(s, b, rest);
      assert PrintTail(b) + rest == [SPACE, DOT, SPACE] + s;
    }
  }

  // ---- A file of printed forms --------------------------------------------------------

  /** `siod_lprint` for each form: one to a line. */
  function PrintLines(s: seq<Form>): seq<byte>
    requires forall i :: 0 <= i < |s| ==> Exact(s[i])
  {
    if s == [] then [] else Print(s[0]) + ([NEWLINE] + PrintLines(s[1..]))
  }

  datatype Loaded = Loaded(forms: seq<Form>) | LoadFailed(why: Fault)

  /** Call the reader until end of file. */
  function ReadAll(s: seq<byte>): Loaded
    decreases |s|
  {
    match ReadTop(s)
    case EndOfFile => Loaded([])
    case Failed(why) => LoadFailed(why)
    case Read(v, rest) =>
      TopReadsOn(s);
      var more := ReadAll(rest);
      if more.Loaded? then Loaded([v] + more.forms) else more
  }

  lemma TopReadsOn(s: seq<byte>)
    ensures var r := ReadTop(s); r.Read? ==> |r.rest| < |s|
  {
    hide ReadForm;
  }

  lemma NewlineSkipped(s: seq<byte>)
    ensures ReadTop([NEWLINE] + s) == ReadTop(s)
  {
    hide ReadForm;
    assert ([NEWLINE] + s)[1..] == s;
  }

  lemma TopReads(d: Form, rest: seq<byte>)
    requires Exact(d) && Readable(d) && (IsToken(d) ==> Boundary(rest))
    ensures ReadTop(Print(d) + rest) == Read(d, AfterForm(d, rest))
  {
    hide ReadForm, Print, FlushWs, AfterForm;
    ReadsBack(d, rest);
    PrintStarts(d, rest);
  }

  lemma {:induction false} LinesReadBack(s: seq<Form>)
    requires ReadableAll(s) && forall i :: 0 <= i < |s| ==> Exact(s[i])
    ensures ReadAll(PrintLines(s)) == Loaded(s)
  {
    hide ReadTop, Print, Readable;
    if s == [] {
      assert ReadTop([]).EndOfFile? by { NothingLeft(); }
    } else {
      var more := PrintLines(s[1..]);
      TopReads(s[0], [NEWLINE] + more);
      NewlineSkipped(more);
      LinesReadBack(s[1..]);
      assert AfterToken([NEWLINE] + more) == more;
      assert [s[0]] + s[1..] == s;
    }
  }

  lemma NothingLeft()
    ensures ReadTop([]).EndOfFile?
  {
  }

  // ---- Exactly which symbols and strings read back ---------------------------------------

  /** A symbol that comes back from the reader is no longer than the text it came from,
      and shorter when that text was a parenthesis. */
  ghost predicate SymbolFits(r: Reading, s: seq<byte>) {
    r.Got? && r.value.Symbol? ==> |r.value.name| + |r.rest| <= |s|
  }

  lemma {:induction false} UpToNulShorter(s: seq<byte>)
    ensures |UpToNul(s)| <= |s|
    ensures |UpToNul(s)| == |s| ==> UpToNul(s) == s && 0 !in s
  {
    if s != [] && s[0] != 0 {
      UpToNulShorter(s[1..]);
    }
  }

  lemma AtomFits(s: seq<byte>)
    requires s != []
    ensures SymbolFits(ReadAtom(s), s)
  {
    hide Lex, UpToNul;
    var n := 1 + TokenEnd(s[1..]);
    UpToNulShorter(s[..n]);
  }

  lemma {:induction false} FormSymbolFits(s: seq<byte>)
    requires ReadForm(s).Got? && ReadForm(s).value.Symbol?
    ensures var r, t := ReadForm(s), FlushWs(s);
            && t != []
            && (t[0] == OPEN ==> |r.value.name| + |r.rest| < |t|)
            && (t[0] != OPEN ==> t[0] !in {QUOTE, BACKQUOTE, COMMA, DOUBLE_QUOTE, SHARP, CLOSE} && r == ReadAtom(t))
            && SymbolFits(r, t)
    decreases |s|, 0
  {
    hide ReadAtom, ReadString, Prefixed, Comma, ReadList, Sharp, FlushWs, SymbolFits;
    var t := FlushWs(s);
    if t[0] == OPEN {
      ListSymbolFits(t[1..]);
      ShorterFits(ReadList(t[1..]), t);
    } else {
      NoSymbolHere(t[1..]);
      AtomFits(t);
    }
  }

  lemma ShorterFits(r: Reading, t: seq<byte>)
    requires t != [] && SymbolFits(r, t[1..])
    ensures SymbolFits(r, t)
    ensures r.Got? && r.value.Symbol? ==> |r.value.name| + |r.rest| < |t|
  {
  }

  /** The other syntaxes never give a symbol. */
  lemma NoSymbolHere(s: seq<byte>)
    ensures forall head, proper :: var r := Prefixed(head, s, proper); r.Got? ==> !r.value.Symbol?
    ensures Comma(s).Got? ==> !Comma(s).value.Symbol?
    ensures Sharp(s).Got? ==> !Sharp(s).value.Symbol?
    ensures ReadString(s, 0).Got? ==> !ReadString(s, 0).value.Symbol?
  {
    hide ReadForm, ReadString;
  }

  lemma {:induction false} ListSymbolFits(s: seq<byte>)
    ensures SymbolFits(ReadList(s), s)
    decreases |s|, 1
  {
    hide ReadForm;
    var t := FlushWs(s);
    if t != [] && t[0] != CLOSE {
      var head := ReadForm(t);
      if head.Got? && head.value == Symbol([DOT]) {
        var tail := ReadForm(head.rest);
        if tail.Got? && tail.value.Symbol? {
          FormSymbolFits(head.rest);
        }
      }
    }
  }

  /** A symbol by itself reads back exactly when its name is a non-empty token that is
      no number, has nothing in it that ends a token or opens another syntax, and fits
      the token buffer. */
  lemma SymbolReadsBackExactly(name: seq<byte>)
    requires 0 !in name
    ensures ReadTop(Print(Symbol(name))) == Read(Symbol(name), []) <==> SymbolText(name)
  {
    hide ReadForm, Lex;
    NoNulName(name);
    if SymbolText(name) {
      SymbolReads(name, []);
      assert name + [] == name;
      assert name[0] in name;
    } else if ReadTop(name) == Read(Symbol(name), []) {
      var t := FlushWs(name);
      SecondFlush(name);
      FormSymbolFits(t);
      FlushOnlyShortens(name);
      assert t == name;
      AtomSpells(name);
      assert false;
    }
  }

  lemma SecondFlush(s: seq<byte>)
    ensures FlushWs(FlushWs(s)) == FlushWs(s)
  {
    var t := FlushWs(s);
  }

  lemma {:induction false} FlushOnlyShortens(s: seq<byte>)
    ensures |FlushWs(s)| == |s| ==> FlushWs(s) == s
  {
  }

  lemma AtomSpells(name: seq<byte>)
    requires name != [] && ReadAtom(name).Got? && ReadAtom(name).value == Symbol(name)
    ensures |name| < TKBUFFERN && Lex(name).None? && 0 !in name
    ensures forall i :: 0 < i < |name| ==> !IsSpace(name[i]) && !IsPunctuation(name[i])
  {
    hide Lex, UpToNul;
    var n := 1 + TokenEnd(name[1..]);
    UpToNulShorter(name[..n]);
    assert n == |name| && name[..n] == name;
    TokenEndPasses(name[1..]);
    forall i | 0 < i < |name| ensures !IsSpace(name[i]) && !IsPunctuation(name[i]) {
      assert name[i] == name[1..][i - 1];
    }
  }

  lemma {:induction false} TokenEndPasses(s: seq<byte>)
    ensures forall i :: 0 <= i < TokenEnd(s) ==> !IsSpace(s[i]) && !IsPunctuation(s[i])
  {
    if s != [] && !IsSpace(s[0]) && !IsPunctuation(s[0]) {
      TokenEndPasses(s[1..]);
      forall i | 0 <= i < TokenEnd(s) ensures !IsSpace(s[i]) && !IsPunctuation(s[i]) {
        if i > 0 {
          assert s[i] == s[1..][i - 1];
        }
      }
    }
  }

  /** A string reads back exactly when it has no NUL and fits the token buffer. */
  lemma StringReadsBackExactly(bytes: seq<byte>)
    ensures ReadTop(Print(String(bytes))) == Read(String(bytes), [])
            <==> 0 !in bytes && |bytes| < TKBUFFERN
  {
    hide ReadForm, Escape;
    var b := UpToNul(bytes);
    UpToNulShorter(bytes);
    if 0 !in bytes {
      NoNulName(bytes);
    }
    QuotedReads(b, []);
    var s := Print(String(bytes));
    assert s == [DOUBLE_QUOTE] + Escape(b) + [DOUBLE_QUOTE] + [];
    assert FlushWs(s) == s;
  }

  /** The symbol whose name is `12` reads back as a number. */
  lemma TwelveIsANumber()
    ensures !SymbolText([49, 50]) && ReadTop(Print(Symbol([49, 50]))) == Read(Flonum(Whole(12)), [])
  {
    hide ReadForm;
    assert Digits(12) == Digits(1) + [50] == [49, 50];
    DecimalLexes(12);
    NumberReads(Whole(12), []);
    NoNulName([49, 50]);
    assert [49, 50] + [] == [49, 50 as byte];
  }

  /** Of a string only what is in front of its first NUL comes back. */
  lemma NulCutsString()
    ensures ReadTop(Print(String([65, 0, 66]))) == Read(String([65]), [])
  {
    hide ReadForm;
    assert UpToNul([65, 0, 66]) == [65] by {
      assert [65, 0, 66][1..] == [0, 66 as byte];
    }
    assert Escape([65]) == [65] by {
      assert [65][1..] == [] && EscapeChar(65) == [65];
    }
    QuotedReads([65], []);
    var s := Print(String([65, 0, 66]));
    assert s == [DOUBLE_QUOTE] + Escape([65]) + [DOUBLE_QUOTE] + [];
  }
}
