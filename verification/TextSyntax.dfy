/** The syntax of the textual format, character by character (src/slib.c:2033-2249,
    src/sliba.c:101-170, 485-553): what the reader makes of each kind of text, printed or
    not, and just what the printer puts out. */
module TextSyntax {
  import opened Bytes
  import opened Data
  import opened TextIO

  /** The characters by name. */
  lemma Delimiters()
    ensures OPEN == '(' as int && CLOSE == ')' as int && SPACE == ' ' as int && DOT == '.' as int && SHARP == '#' as int
    ensures QUOTE == '\'' as int && BACKQUOTE == '`' as int && COMMA == ',' as int && SEMICOLON == ';' as int
    ensures DOUBLE_QUOTE == '"' as int && BACKSLASH == '\\' as int && MINUS == '-' as int && NEWLINE == '\n' as int
    ensures forall c: byte :: IsSpace(c) <==> c == ' ' as int || c == '\t' as int || c == '\n' as int || c == 11 || c == 12 || c == '\r' as int
    ensures forall c: byte :: IsDigit(c) <==> '0' as int <= c <= '9' as int
    ensures forall c: byte :: IsPunctuation(c) <==> c in {OPEN, CLOSE, QUOTE, BACKQUOTE, COMMA, SEMICOLON, DOUBLE_QUOTE, 0}
    ensures TKBUFFERN == 5120
  {
  }

  // ---- Reading -----------------------------------------------------------------------------

  /** What the reader makes of the text after a prefix that stands for `head`. */
  function Headed(head: string, proper: bool, r: Reading): Reading {
    if r.Fail? then r
    else Got(Cons(Symbol(Ascii(head)), if proper then Cons(r.value, Nil) else r.value), r.rest)
  }

  /** 'x is (quote x); the other prefixes make a pair of their internal name and the form. */
  lemma PrefixSyntax(s: seq<byte>)
    ensures ReadForm([QUOTE] + s) == Headed("quote", true, ReadForm(s))
    ensures ReadForm([BACKQUOTE] + s) == Headed("+siod_internal-backquote", false, ReadForm(s))
    ensures ReadForm([COMMA, '@' as int] + s) == Headed("+siod_internal-comma-atsign", false, ReadForm(s))
    ensures ReadForm([COMMA, '.' as int] + s) == Headed("+siod_internal-comma-dot", false, ReadForm(s))
    ensures s == [] || (s[0] != '@' as int && s[0] != '.' as int) ==>
              ReadForm([COMMA] + s) == Headed("+siod_internal-comma", false, ReadForm(s))
  {
    hide ReadForm, Ascii;
    CommaLetter(64, s);
    CommaLetter(DOT, s);
    CommaSyntax(s);
    QuoteSyntax(s);
  }

  lemma CommaLetter(c: byte, s: seq<byte>)
    ensures ReadForm([COMMA, c] + s) == Comma([c] + s) && ([c] + s)[1..] == s
  {
    hide ReadForm, Comma;
    CommaSyntax([c] + s);
    assert [COMMA, c] + s == [COMMA] + ([c] + s);
  }

  lemma QuoteSyntax(s: seq<byte>)
    ensures ReadForm([QUOTE] + s) == Prefixed("quote", s, true)
    ensures ReadForm([BACKQUOTE] + s) == Prefixed("+siod_internal-backquote", s, false)
  {
    hide ReadList, ReadString, Sharp, ReadAtom, Prefixed, Comma;
    assert ([QUOTE] + s)[1..] == s && ([BACKQUOTE] + s)[1..] == s;
  }

  lemma CommaSyntax(s: seq<byte>)
    ensures ReadForm([COMMA] + s) == Comma(s)
  {
    hide ReadList, ReadString, Sharp, ReadAtom, Prefixed, Comma;
    assert ([COMMA] + s)[1..] == s;
  }

  /** A printed form after a quote is read as that form quoted. */
  lemma QuotedForm(d: Form, rest: seq<byte>)
    requires Exact(d) && Readable(d) && (IsToken(d) ==> Boundary(rest))
    ensures ReadForm([QUOTE] + (Print(d) + rest)) == Got(Cons(Symbol(Ascii("quote")), Cons(d, Nil)), AfterForm(d, rest))
  {
    hide ReadForm, Print, Readable, Ascii;
    ReadsBack(d, rest);
    PrefixSyntax(Print(d) + rest);
  }

  /** #t is the number 1, #f is NIL, #( starts an array, #. would evaluate, and nothing else
      may follow a sharp sign. */
  lemma SharpSyntaxes(s: seq<byte>)
    ensures ReadForm([SHARP, 't' as int] + s) == Got(Flonum(Whole(1)), s)
    ensures ReadForm([SHARP, 'f' as int] + s) == Got(Nil, s)
    ensures ReadForm([SHARP, '.' as int] + s) == if ReadForm(s).Fail? then ReadForm(s) else Fail(ReadTimeEval)
    ensures s == [] || s[0] !in {'t' as int, 'f' as int, '.' as int, '(' as int} ==> ReadForm([SHARP] + s) == Fail(SharpSyntax)
  {
    hide ReadForm;
    SharpLetter(116, s);
    SharpLetter(102, s);
    SharpLetter(DOT, s);
    SharpReads(s);
  }

  lemma SharpLetter(c: byte, s: seq<byte>)
    ensures ReadForm([SHARP, c] + s) == Sharp([c] + s) && ([c] + s)[1..] == s
  {
    hide ReadForm, Sharp;
    SharpReads([c] + s);
    assert [SHARP, c] + s == [SHARP] + ([c] + s);
  }

  /** #( followed by the rest of a proper list is the array of its elements; with a dotted list
      it is an error, and with a dot and one form alone it is too, unless that is empty. */
  lemma ArraySyntax(s: seq<byte>)
    ensures var (a, r) := (ReadForm([SHARP, OPEN] + s), ReadForm([OPEN] + s));
            && (r.Fail? ==> a == r)
            && (r.Got? && r.value.Cons? ==> a == if SpineEnd(r.value).Nil? then Got(LispArray(Spine(r.value)), r.rest) else Fail(BadLength))
            && (r.Got? && (r.value.Nil? || r.value == LispArray([])) ==> a == Got(LispArray([]), r.rest))
            && (r.Got? && r.value.String? ==> a == if UpToNul(r.value.bytes) == [] then Got(LispArray([]), r.rest) else Fail(BadLength))
            && (r.Got? && !r.value.Nil? && !r.value.Cons? && !r.value.String? && r.value != LispArray([]) ==> a == Fail(BadLength))
  {
    hide ReadForm;
    SharpLetter(OPEN, s);
  }

  /** A list is read up to its close; a close by itself and the end of the file are errors. */
  lemma ListSyntax(s: seq<byte>)
    ensures ReadForm([OPEN] + s) == ReadList(s) && ReadList([CLOSE] + s) == Got(Nil, s)
    ensures ReadForm([CLOSE] + s) == Fail(UnexpectedClose)
    ensures ReadForm([]) == Fail(EndInside) && ReadList([]) == Fail(EndInList)
  {
    hide ReadString, Sharp, ReadList, Prefixed, Comma, ReadAtom;
    OpenReads(s);
    CloseReads(s);
    NoList();
  }

  lemma NoList()
    ensures ReadList([]) == Fail(EndInList)
  {
  }

  /** An element and the rest of its list. */
  lemma ElementSyntax(s: seq<byte>)
    requires FlushWs(s) == s != [] && s[0] != CLOSE
    ensures var h := ReadForm(s);
            && (h.Fail? ==> ReadList(s) == h)
            && (h.Got? && h.value != Symbol([DOT]) ==>
                  var t := ReadList(h.rest);
                  ReadList(s) == if t.Fail? then t else Got(Cons(h.value, t.value), t.rest))
            && (h.Got? && h.value == Symbol([DOT]) ==>
                  var t := ReadForm(h.rest);
                  && (t.Fail? ==> ReadList(s) == t)
                  && (t.Got? ==>
                        var u := FlushWs(t.rest);
                        && (u == [] ==> ReadList(s) == Fail(EndInList))
                        && (u != [] && u[0] == CLOSE ==> ReadList(s) == Got(t.value, u[1..]))
                        && (u != [] && u[0] != CLOSE ==> ReadList(s) == Fail(MissingClose))))
  {
    hide ReadForm;
  }

  /** White space, and comments up to the end of their line, do not count. */
  lemma CommentSyntax(c: byte, line: seq<byte>, s: seq<byte>)
    requires NEWLINE !in line
    ensures IsSpace(c) ==> ReadForm([c] + s) == ReadForm(s) && ReadList([c] + s) == ReadList(s) && ReadTop([c] + s) == ReadTop(s)
    ensures var t := [SEMICOLON] + (line + ([NEWLINE] + s));
            ReadForm(t) == ReadForm(s) && ReadList(t) == ReadList(s) && ReadTop(t) == ReadTop(s)
  {
    hide ReadForm, ReadList, ReadTop;
    var t := [SEMICOLON] + (line + ([NEWLINE] + s));
    assert ([c] + s)[1..] == s && t[1..] == line + ([NEWLINE] + s);
    LineFlushed(line, s);
    if IsSpace(c) {
      FlushedAlike([c] + s, s);
    }
    FlushedAlike(t, s);
  }

  lemma FlushedAlike(s: seq<byte>, t: seq<byte>)
    requires FlushWs(s) == FlushWs(t)
    ensures ReadForm(s) == ReadForm(t) && ReadList(s) == ReadList(t) && ReadTop(s) == ReadTop(t)
  {
    hide ReadAtom, ReadString, Sharp, Prefixed, Comma, FlushWs;
  }

  lemma {:induction false} LineFlushed(line: seq<byte>, s: seq<byte>)
    requires NEWLINE !in line
    ensures FlushLine(line + ([NEWLINE] + s)) == FlushWs(s)
  {
    hide FlushWs;
    var t := line + ([NEWLINE] + s);
    if line == [] {
      assert t[1..] == s;
    } else {
      assert t[0] == line[0] && t[1..] == line[1..] + ([NEWLINE] + s);
      LineFlushed(line[1..], s);
    }
  }

  // ---- Strings -----------------------------------------------------------------------------

  /** What stands after a backslash in a string. */
  lemma EscapeSyntax(s: seq<byte>)
    ensures Unescape(['n' as int] + s) == Character(10, s)
    ensures Unescape(['t' as int] + s) == Character(9, s)
    ensures Unescape(['r' as int] + s) == Character(13, s)
    ensures Unescape(['d' as int] + s) == Character(4, s)
    ensures Unescape(['N' as int] + s) == Character(0, s)
    ensures Unescape(['s' as int] + s) == Character(32, s)
    ensures s != [] && s[0] !in {'n' as int, 't' as int, 'r' as int, 'd' as int, 'N' as int, 's' as int, '0' as int} ==>
              Unescape(s) == Character(s[0], s[1..])
    ensures Unescape([]) == NoCharacter
  {
    assert forall c: byte :: ([c] + s)[1..] == s;
  }

  /** The number that digits spell in base eight; 8 and 9 count for what they are. */
  function OctalValue(ds: seq<byte>): int {
    if ds == [] then 0 else 8 * OctalValue(ds[..|ds| - 1]) + (ds[|ds| - 1] as int - 48)
  }

  /** A zero after a backslash starts a number in octal, of which the low eight bits count. */
  lemma OctalSyntax(ds: seq<byte>, s: seq<byte>)
    requires (forall i :: 0 <= i < |ds| ==> IsDigit(ds[i])) && s != [] && !IsDigit(s[0])
    ensures Unescape(['0' as int] + (ds + s)) == Character(OctalValue(ds) % 256, s)
    ensures Unescape(['0' as int] + ds) == NoCharacter
  {
    hide Octal, OctalValue;
    NoOctal();
    OctalFrom([], ds, s);
    OctalFrom([], ds, []);
    assert [] + ds == ds && ds + [] == ds;
    assert ([48] + (ds + s))[1..] == ds + s && ([48] + ds)[1..] == ds;
  }

  lemma NoOctal()
    ensures OctalValue([]) == 0
  {
  }

  lemma {:induction false} OctalFrom(before: seq<byte>, ds: seq<byte>, s: seq<byte>)
    requires (forall i :: 0 <= i < |ds| ==> IsDigit(ds[i])) && (s == [] || !IsDigit(s[0])) && OctalValue(before) >= 0
    ensures Octal(ds + s, OctalValue(before)) == if s == [] then NoCharacter else Character(OctalValue(before + ds) % 256, s)
    ensures OctalValue(before + ds) >= 0
    decreases |ds|
  {
    hide Octal, OctalValue;
    if ds == [] {
      assert ds + s == s && before + ds == before;
      OctalEnds(OctalValue(before), s);
    } else {
      var more := before + [ds[0]];
      OctalMore(before, ds[0], ds[1..] + s);
      OctalFrom(more, ds[1..], s);
      assert [ds[0]] + (ds[1..] + s) == ds + s;
      assert more + ds[1..] == before + ds;
    }
  }

  lemma OctalEnds(n: nat, s: seq<byte>)
    requires s == [] || !IsDigit(s[0])
    ensures Octal(s, n) == if s == [] then NoCharacter else Character(n % 256, s)
  {
  }

  lemma OctalMore(before: seq<byte>, d: byte, t: seq<byte>)
    requires IsDigit(d) && OctalValue(before) >= 0
    ensures OctalValue(before + [d]) == 8 * OctalValue(before) + (d - 48)
    ensures Octal([d] + t, OctalValue(before)) == Octal(t, OctalValue(before + [d]))
  {
    assert (before + [d])[..|before|] == before;
    assert ([d] + t)[1..] == t;
  }

  /** A string goes on to its closing quote, or to the end of the file; `j` characters are in
      the buffer already. */
  lemma StringSyntax(s: seq<byte>, j: nat)
    ensures ReadForm([DOUBLE_QUOTE] + s) == ReadString(s, 0)
    ensures ReadString([], j) == Got(String([]), [])
    ensures s != [] && s[0] == DOUBLE_QUOTE ==> ReadString(s, j) == Got(String([]), s[1..])
    ensures s != [] && s[0] == BACKSLASH && Unescape(s[1..]) == NoCharacter ==> ReadString(s, j) == Fail(EndInEscape)
    ensures s != [] && s[0] == BACKSLASH && Unescape(s[1..]).Character? ==>
              ReadString(s, j) == OneMore(Unescape(s[1..]).code, j, ReadString(Unescape(s[1..]).rest, j + 1))
    ensures s != [] && s[0] != BACKSLASH && s[0] != DOUBLE_QUOTE ==>
              ReadString(s, j) == OneMore(s[0], j, ReadString(s[1..], j + 1))
  {
    hide ReadForm, Unescape;
    QuoteReads(s);
  }

  /** The character `c` in front of the rest of a string, if it fits the buffer. */
  function OneMore(c: byte, j: nat, r: Reading): Reading {
    if j + 1 >= 5120 then Fail(StringTooLong)
    else if r.Got? && r.value.String? then Got(String([c] + r.value.bytes), r.rest)
    else r
  }

  // ---- Numbers -----------------------------------------------------------------------------

  predicate AllDigits(s: seq<byte>) {
    forall i :: 0 <= i < |s| ==> IsDigit(s[i])
  }

  /** An optional minus sign, digits, a point and digits, and an exponent: */
  ghost predicate Parts(t: seq<byte>, minus: bool, whole: seq<byte>, point: bool, fraction: seq<byte>, e: seq<byte>) {
    && AllDigits(whole) && AllDigits(fraction) && |whole| + |fraction| > 0 && (fraction != [] ==> point) && IsExponent(e)
    && t == (if minus then ['-' as int] else []) + (whole + ((if point then ['.' as int] else []) + (fraction + e)))
  }

  /** nothing, or the letter e, a sign if any, and digits. */
  predicate IsExponent(e: seq<byte>) {
    e == [] || (e[0] == 'e' as int && AfterSign(e[1..]) != [] && AllDigits(AfterSign(e[1..])))
  }

  function AfterSign(s: seq<byte>): seq<byte> {
    if s != [] && (s[0] == '+' as int || s[0] == '-' as int) then s[1..] else s
  }

  lemma {:induction false} DigitsSkipped(d: seq<byte>, s: seq<byte>)
    requires AllDigits(d) && (s == [] || !IsDigit(s[0]))
    ensures SkipDigits(d + s) == s
  {
    if d == [] {
      assert d + s == s;
    } else {
      assert (d + s)[0] == d[0] && (d + s)[1..] == d[1..] + s;
      DigitsSkipped(d[1..], s);
    }
  }

  lemma {:induction false} SkippedDigits(s: seq<byte>)
    ensures var n := |s| - |SkipDigits(s)|; AllDigits(s[..n]) && s[n..] == SkipDigits(s)
  {
    if s != [] && IsDigit(s[0]) {
      SkippedDigits(s[1..]);
      var n := |s[1..]| - |SkipDigits(s[1..])|;
      assert s[..n + 1] == [s[0]] + s[1..][..n];
      assert s[n + 1..] == s[1..][n..];
    }
  }

  lemma DigitsOnly(q: seq<byte>)
    requires q != []
    ensures IsDigit(q[0]) && SkipDigits(q[1..]) == [] <==> AllDigits(q)
  {
    hide SkipDigits;
    var r := q[1..];
    if AllDigits(q) {
      DigitsSkipped(r, []);
      assert r + [] == r;
    } else if IsDigit(q[0]) {
      SkippedDigits(r);
      var i :| 0 <= i < |q| && !IsDigit(q[i]);
      assert i > 0 && r[i - 1] == q[i];
      assert r[..|r|] == r;
    }
  }

  lemma ExponentSkipped(e: seq<byte>)
    ensures SkipExponent(e) == Some([]) <==> IsExponent(e)
  {
    hide SkipDigits, AllDigits;
    if e != [] && e[0] == 101 && AfterSign(e[1..]) != [] {
      DigitsOnly(AfterSign(e[1..]));
    }
  }

  lemma ExponentStart(e: seq<byte>)
    requires IsExponent(e)
    ensures e == [] || (!IsDigit(e[0]) && e[0] != DOT)
  {
  }

  /** A token is a number exactly when it consists of such parts. */
  lemma NumberGrammar(t: seq<byte>)
    ensures IsNumber(t) <==> exists minus, whole, point, fraction, e :: Parts(t, minus, whole, point, fraction, e)
  {
    hide IsNumber, Parts;
    if IsNumber(t) {
      var minus, whole, point, fraction, e := PartsOfNumber(t);
      assert Parts(t, minus, whole, point, fraction, e);
    }
    forall minus, whole, point, fraction, e | Parts(t, minus, whole, point, fraction, e)
      ensures IsNumber(t)
    {
      PartsAreNumber(t, minus, whole, point, fraction, e);
    }
  }

  lemma PartsOfNumber(t: seq<byte>) returns (minus: bool, whole: seq<byte>, point: bool, fraction: seq<byte>, e: seq<byte>)
    requires IsNumber(t)
    ensures Parts(t, minus, whole, point, fraction, e)
  {
    hide SkipDigits, SkipExponent, IsExponent, AllDigits;
    var p := AfterMinus(t);
    var q := SkipDigits(p);
    minus, whole := |p| < |t|, p[..|p| - |q|];
    SkippedDigits(p);
    point, fraction, e := PartsOfFraction(q);
    assert p == whole + q;
    assert t == (if minus then [MINUS] else []) + p;
  }

  /** What follows the digits in front of the point. */
  lemma PartsOfFraction(q: seq<byte>) returns (point: bool, fraction: seq<byte>, e: seq<byte>)
    requires SkipExponent(if q != [] && q[0] == DOT then SkipDigits(q[1..]) else q) == Some([])
    ensures AllDigits(fraction) && (fraction != [] ==> point) && IsExponent(e)
    ensures q == (if point then [DOT] else []) + (fraction + e)
    ensures fraction != [] <==> q != [] && q[0] == DOT && |SkipDigits(q[1..])| < |q| - 1
  {
    hide SkipDigits, SkipExponent, IsExponent, AllDigits;
    point := q != [] && q[0] == DOT;
    if point {
      var u := q[1..];
      e := SkipDigits(u);
      SkippedDigits(u);
      fraction := u[..|u| - |e|];
      assert u == fraction + e;
    } else {
      e, fraction := q, [];
      NoDigits();
    }
    ExponentSkipped(e);
  }

  lemma NoDigits()
    ensures AllDigits([])
  {
  }

  lemma PartsAreNumber(t: seq<byte>, minus: bool, whole: seq<byte>, point: bool, fraction: seq<byte>, e: seq<byte>)
    requires Parts(t, minus, whole, point, fraction, e)
    ensures IsNumber(t)
  {
    hide SkipDigits, SkipExponent, IsExponent;
    ExponentSkipped(e);
    ExponentStart(e);
    var u := fraction + e;
    var q := (if point then [DOT] else []) + u;
    var p := whole + q;
    assert point ==> q[1..] == u;
    assert !point ==> q == u == e;
    assert q == [] || !IsDigit(q[0]);
    assert p[0] != MINUS;
    assert AfterMinus(t) == p by {
      assert minus ==> t[1..] == p;
      assert !minus ==> t == p;
    }
    DigitsSkipped(whole, q);
    DigitsSkipped(fraction, e);
  }

  function Pow2(k: nat): (p: nat)
    ensures p > 0
  {
    if k == 0 then 1 else 2 * Pow2(k - 1)
  }

  /** `n` is `m` followed by `k` binary zeros, with either sign. */
  predicate Scaled(n: int, m: nat, k: nat) {
    n == m * Pow2(k) || n == -(m * Pow2(k))
  }

  /** The whole numbers that a double holds are those of 53 significant bits, up to the
      largest exponent, with either sign. */
  lemma DoublesAre(n: int)
    ensures IsDouble(n) <==> exists m: nat, k: nat :: m < 0x20_0000_0000_0000 && k <= 971 && Scaled(n, m, k)
  {
    hide Representable, Pow2;
    var v := if n < 0 then -n else n;
    if IsDouble(n) {
      var m, k := Significand(v, 971);
      assert Scaled(n, m, k);
    }
    if m: nat, k: nat :| m < 0x20_0000_0000_0000 && k <= 971 && Scaled(n, m, k) {
      assert m * Pow2(k) >= 0;
      ScaledFits(v, m, k, 971);
    }
  }

  lemma {:induction false} Significand(v: nat, e: nat) returns (m: nat, k: nat)
    requires Representable(v, e)
    ensures m < LAST_EXACT && k <= e && Scaled(v, m, k)
  {
    m, k := v, 0;
    if v >= LAST_EXACT {
      m, k := Significand(v / 2, e - 1);
      Doubled(m, k);
      k := k + 1;
    }
  }

  lemma {:induction false} ScaledFits(v: nat, m: nat, k: nat, e: nat)
    requires m < LAST_EXACT && k <= e && Scaled(v, m, k)
    ensures Representable(v, e)
  {
    if k > 0 {
      Doubled(m, k - 1);
      ScaledFits(v / 2, m, k - 1, e - 1);
    }
  }

  lemma Doubled(m: nat, k: nat)
    ensures m * Pow2(k + 1) == 2 * (m * Pow2(k))
  {
  }

  /** Zeros in front do not count. */
  lemma {:induction false} LeadingZero(s: seq<byte>)
    ensures DigitsValue(['0' as int] + s) == DigitsValue(s)
  {
    var t := [48] + s;
    if s == [] {
      assert t[..|t| - 1] == [];
    } else {
      assert t[..|t| - 1] == [48] + s[..|s| - 1];
      LeadingZero(s[..|s| - 1]);
    }
  }

  // ---- Printing ----------------------------------------------------------------------------

  /** The printed forms of `s` with a space in front of each but the first. */
  function Spaced(s: seq<Form>): seq<byte>
    requires forall i :: 0 <= i < |s| ==> Exact(s[i])
  {
    if s == [] then []
    else if |s| == 1 then Print(s[0])
    else Spaced(s[..|s| - 1]) + [SPACE] + Print(s[|s| - 1])
  }

  lemma {:induction false} SpacedFirst(s: seq<Form>)
    requires |s| > 1 && forall i :: 0 <= i < |s| ==> Exact(s[i])
    ensures Spaced(s) == Print(s[0]) + [SPACE] + Spaced(s[1..])
  {
    hide Print;
    var n := |s| - 1;
    if |s| == 2 {
      assert s[..1] == [s[0]] && s[1..] == [s[1]];
    } else {
      SpacedFirst(s[..n]);
      assert s[..n][1..] == s[1..][..n - 1] && s[..n][0] == s[0];
      var a, b, c := Print(s[0]), Spaced(s[1..][..n - 1]), Print(s[n]);
      assert (a + [SPACE] + b) + [SPACE] + c == a + [SPACE] + (b + [SPACE] + c);
    }
  }

  /** A list is printed as its elements with single spaces between them, in parentheses, and
      what it ends in, unless that is NIL, after a dot between spaces. */
  lemma {:induction false} PrintsList(s: seq<Form>, end: Form)
    requires s != [] && (forall i :: 0 <= i < |s| ==> Exact(s[i])) && Exact(end) && !end.Cons?
    ensures Exact(FromSpine(s, end))
    ensures Print(FromSpine(s, end))
         == [OPEN] + (Spaced(s) + ((if end.Nil? then [] else [SPACE, DOT, SPACE] + Print(end)) + [CLOSE]))
  {
    hide Print, PrintTail, Spaced;
    TailPrints(s, end);
    PrintCons(s[0], FromSpine(s[1..], end));
  }

  lemma {:induction false} TailPrints(s: seq<Form>, end: Form)
    requires s != [] && (forall i :: 0 <= i < |s| ==> Exact(s[i])) && Exact(end) && !end.Cons?
    ensures Exact(FromSpine(s, end)) && Exact(FromSpine(s[1..], end))
    ensures Print(s[0]) + PrintTail(FromSpine(s[1..], end))
         == Spaced(s) + ((if end.Nil? then [] else [SPACE, DOT, SPACE] + Print(end)) + [CLOSE])
  {
    hide Print, PrintTail;
    if |s| == 1 {
      TailParts(end);
      assert [SPACE, DOT, SPACE] + Print(end) + [CLOSE] == ([SPACE, DOT, SPACE] + Print(end)) + [CLOSE];
    } else {
      hide Spaced;
      TailPrints(s[1..], end);
      SpacedFirst(s);
      PrintCons(s[1], FromSpine(s[1..][1..], end));
      Regrouped(Print(s[0]), Spaced(s[1..]), (if end.Nil? then [] else [SPACE, DOT, SPACE] + Print(end)) + [CLOSE]);
    }
  }

  lemma Regrouped(a: seq<byte>, b: seq<byte>, c: seq<byte>)
    ensures a + ([SPACE] + (b + c)) == (a + [SPACE] + b) + c
  {
  }

  /** What else is printed, text by text. */
  lemma PrintsAtoms(bytes: seq<byte>, x: Number)
    requires x.Whole? && Exact(Flonum(x))
    ensures Print(Nil) == [OPEN, CLOSE] && Print(Symbol(bytes)) == UpToNul(bytes)
    ensures Print(String(bytes)) == [DOUBLE_QUOTE] + Escape(UpToNul(bytes)) + [DOUBLE_QUOTE]
    ensures Print(ByteArray(bytes)) == [SHARP] + Decimal(|bytes|) + [DOUBLE_QUOTE] + Hex(bytes) + [DOUBLE_QUOTE]
    ensures Print(Flonum(x)) == Decimal(x.n)
  {
  }

  /** Of a string only quotes, backslashes and three kinds of white space are changed. */
  lemma EscapesAre(c: byte)
    ensures EscapeChar('"' as int) == ['\\' as int, '"' as int] && EscapeChar('\\' as int) == ['\\' as int, '\\' as int]
    ensures EscapeChar(10) == ['\\' as int, 'n' as int] && EscapeChar(13) == ['\\' as int, 'r' as int]
    ensures EscapeChar(9) == ['\\' as int, 't' as int]
    ensures c !in {34, 92, 10, 13, 9} ==> EscapeChar(c) == [c]
  {
  }

  /** The number a hexadecimal digit stands for. */
  function HexValue(c: byte): nat {
    if 48 <= c <= 57 then c - 48 else if 97 <= c <= 102 then c - 87 else 16
  }

  /** A byte array is printed with two digits for each octet, the high one first. */
  lemma {:induction false} HexDenotes(s: seq<byte>, i: nat)
    requires i < |s|
    ensures |Hex(s)| == 2 * |s|
    ensures HexValue(Hex(s)[2 * i]) < 16 && HexValue(Hex(s)[2 * i + 1]) < 16
    ensures 16 * HexValue(Hex(s)[2 * i]) + HexValue(Hex(s)[2 * i + 1]) == s[i]
  {
    if i > 0 {
      HexDenotes(s[1..], i - 1);
    } else if |s| > 1 {
      HexDenotes(s[1..], 0);
    }
  }

  /** The digits of a number: no zero in front but in 0 itself, and a minus sign for what is
      below zero. */
  lemma DecimalIs(n: nat)
    ensures DigitsValue(Digits(n)) == n && (n > 0 ==> Digits(n)[0] != '0' as int)
    ensures Decimal(n) == Digits(n) && Decimal(0) == ['0' as int]
    ensures n > 0 ==> Decimal(-(n as int)) == ['-' as int] + Digits(n)
  {
    DigitsDenote(n);
    NoZeroInFront(n);
  }

  lemma {:induction false} NoZeroInFront(n: nat)
    ensures n > 0 ==> Digits(n)[0] != 48
  {
    if n >= 10 {
      NoZeroInFront(n / 10);
    }
  }
}
