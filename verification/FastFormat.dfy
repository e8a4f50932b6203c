/** The binary format octet by octet (src/ulsiod.h:83-112, src/sliba.c:756-947): what each
    kind of object is written as, and what the reader makes of octets that the printer never
    writes. */
module FastFormat {
  import opened Bytes
  import opened Data
  import opened FastIO

  /** Objects without parts: their type code, and their contents. */
  lemma AtomsAreWritten(x: Double, bytes: seq<byte>, dict: Dictionary)
    ensures Print(Nil, dict) == Printed([0], dict, true)
    ensures Print(Flonum(x), dict) == Printed([2] + x, dict, true)
    ensures |bytes| < 0x8000_0000 ==> Print(String(bytes), dict) == Printed([13] + PutLong(|bytes|) + bytes, dict, true)
    ensures |bytes| < 0x8000_0000 ==> Print(ByteArray(bytes), dict) == Printed([18] + PutLong(|bytes|) + bytes, dict, true)
  {
    hide PutLong;
    if |bytes| < 0x8000_0000 {
      assert bytes[..|bytes|] == bytes;
    }
  }

  /** A symbol is a reference to the table when it is in it; otherwise it is spelled out,
      after an entry for the table when there is one and a next index.  One of 5120
      characters or more is an error instead, after its type code. */
  lemma SymbolsAreWritten(name: seq<byte>, dict: Dictionary)
    ensures var fits := |name| < 5120;
            var p, spelled := Print(Symbol(name), dict), [3] + if fits then PutLong(|name|) + name else [];
            && (dict.table.None? || (dict.next.None? && name !in dict.table.value) ==> p == Printed(spelled, dict, fits))
            && (dict.table.Some? && name in dict.table.value ==>
                  p == Printed([127] + PutLong(dict.table.value[name]), dict, true))
            && (dict.table.Some? && name !in dict.table.value && dict.next.Some? ==>
                  p == Printed([126] + PutLong(dict.next.value) + spelled,
                               Dictionary(Some(dict.table.value[name := dict.next.value]), Some(dict.next.value + 1)), fits))
  {
    hide PutLong;
    assert forall s: seq<byte> :: [] + s == s;
    assert [3] + (PutLong(|name|) + name) == [3] + PutLong(|name|) + name;
    assert [3] + [] == [3 as byte];
  }

  /** The octets of several objects, one after the other. */
  lemma ManyAreWritten(d: Form, s: seq<Form>, dict: Dictionary)
    requires Print(d, dict).ok
    ensures PrintMany([], dict) == Printed([], dict, true)
    ensures var (p, q) := (Print(d, dict), PrintMany([d] + s, dict));
            var r := PrintMany(s, p.dict);
            q == Printed(p.out + r.out, r.dict, r.ok)
  {
    hide Print;
    assert ([d] + s)[0] == d && ([d] + s)[1..] == s;
  }

  /** A pair whose tail is no pair; a longer list with its length, what it ends in being
      written only when that is not NIL; and an array with its length. */
  lemma ListsAreWritten(d: Form, s: seq<Form>, dict: Dictionary)
    requires d.Cons?
    ensures !d.cdr.Cons? ==> Print(d, dict).out == [1] + PrintMany([d.car, d.cdr], dict).out
    ensures d.cdr.Cons? && SpineEnd(d).Nil? ==>
              Print(d, dict).out == [125] + PutLong(SpineLength(d)) + PrintMany(Spine(d), dict).out
    ensures d.cdr.Cons? && !SpineEnd(d).Nil? ==>
              Print(d, dict).out == [124] + PutLong(SpineLength(d)) + PrintMany(Spine(d) + [SpineEnd(d)], dict).out
    ensures |s| < 0x8000_0000 ==>
              Print(LispArray(s), dict).out == [16] + PutLong(|s|) + PrintMany(s, dict).out
  {
    hide PutLong, PrintMany, Print;
    ConsPrints(d, dict);
    if !d.cdr.Cons? {
      PairPrints(d.car, d.cdr, dict);
    } else {
      PrintOneMore(Spine(d), SpineEnd(d), dict);
    }
    if |s| < 0x8000_0000 {
      ArrayPrints(s, dict);
    }
  }

  lemma ArrayPrints(s: seq<Form>, dict: Dictionary)
    requires |s| < 0x8000_0000
    ensures Print(LispArray(s), dict).out == [16] + PutLong(|s|) + PrintMany(s, dict).out
  {
    hide PutLong, PrintMany;
    assert s[..|s|] == s;
  }

  lemma PairPrints(a: Form, b: Form, dict: Dictionary)
    ensures PrintMany([a, b], dict) == var p := Print(a, dict); if p.ok then After(p, Print(b, p.dict)) else p
  {
    hide Print;
    assert [a, b][1..] == [b] && [b][1..] == [];
    var p := Print(a, dict);
    if p.ok {
      var q := Print(b, p.dict);
      assert PrintMany([b], p.dict) == q by {
        assert PrintMany([], q.dict) == Printed([], q.dict, true);
        assert q.out + [] == q.out;
      }
    }
  }

  /** The end of the file, unknown opcodes, references to what is not in the table, and a
      comment with a NUL in it, which goes on as a reference would. */
  lemma OtherInput(c: byte, i: int, text: seq<byte>, s: seq<byte>, table: map<int, Form>)
    requires c !in {0, 1, 2, 3, 13, 16, 18, 35, 124, 125, 126, 127}
    requires -TWO_63 <= i < TWO_63 && i !in table && 0 !in text && 10 !in text
    ensures Read([], table) == AtEnd(table)
    ensures Read([c] + s, table) == Broken(UnknownOpcode(c))
    ensures Read([127] + (PutLong(i) + s), table) == Got(Nil, s, table)
    ensures Read([35] + (text + ([0] + s)), table) == Fetch(s, table)
    ensures Read([35] + (text + ([10] + s)), table) == Read(s, table)
    ensures Read([35] + text, table) == AtEnd(table)
  {
    hide ReadMany, PutLong, GetLong;
    LongReadsBack(i);
    assert (PutLong(i) + s)[..8] == PutLong(i) && (PutLong(i) + s)[8..] == s;
    TextSkipped(text, 0, s);
    TextSkipped(text, 10, s);
    assert ([c] + s)[1..] == s && ([35] + text)[1..] == text;
    var t, u, v := PutLong(i) + s, text + ([0] + s), text + ([10] + s);
    assert ([127] + t)[1..] == t && ([35] + u)[1..] == u && ([35] + v)[1..] == v;
  }

  lemma {:induction false} TextSkipped(text: seq<byte>, c: byte, s: seq<byte>)
    requires 0 !in text && 10 !in text
    ensures SkipComment(text) == EndOfFile
    ensures c == 0 ==> SkipComment(text + ([c] + s)) == FallsThrough(s)
    ensures c == 10 ==> SkipComment(text + ([c] + s)) == EndOfLine(s)
  {
    var t := text + ([c] + s);
    if text == [] {
      assert t[1..] == s;
    } else {
      assert t[0] == text[0] && t[1..] == text[1..] + ([c] + s);
      TextSkipped(text[1..], c, s);
    }
  }

  function Line(text: string): seq<byte> {
    ['#' as int] + Ascii(text) + ['\n' as int]
  }

  /** The header of a save file, line by line; and a one does look as the fourth line says. */
  lemma HeaderIs()
    ensures Header() == Line(" Siod Binary Object Save File")
                        + (Line(" sizeof(long) = 8")
                           + (Line(" sizeof(double) = 8")
                              + (Line(" 1 = 0100000000000000") + Line(" 1.0 = 000000000000F03F"))))
    ensures PutLong(1) == [0x01, 0, 0, 0, 0, 0, 0, 0]
  {
    hide CommentLine, Line, PutLong;
    OneIs();
    LineIs(" Siod Binary Object Save File");
    LineIs(" sizeof(long) = 8");
    LineIs(" sizeof(double) = 8");
    LineIs(" 1 = 0100000000000000");
    LineIs(" 1.0 = 000000000000F03F");
  }

  lemma LineIs(text: string)
    ensures CommentLine(text) == Line(text)
  {
    hide Ascii;
  }
}
