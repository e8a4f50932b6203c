/** The binary save format (src/sliba.c:756-980, 1626-1691): what the printer
    writes, what the reader makes of a file, and that the second undoes the first. */
module FastIO {
  import opened Bytes
  import opened Data

  const FO_COMMENT: byte := 35
  const FO_LISTD: byte := 124
  const FO_LIST: byte := 125
  const FO_STORE: byte := 126
  const FO_FETCH: byte := 127
  const TC_NIL: byte := 0
  const TC_CONS: byte := 1
  const TC_FLONUM: byte := 2
  const TC_SYMBOL: byte := 3
  const TC_STRING: byte := 13
  const TC_LISP_ARRAY: byte := 16
  const TC_BYTE_ARRAY: byte := 18
  const TKBUFFERN := 5120
  /** Beyond this the table counter, a double, no longer counts. */
  const LAST_EXACT := 0x20_0000_0000_0000

  type Double = s: seq<byte> | |s| == 8 witness [0, 0, 0, 0, 0, 0, 0, 0]
  type Form = Datum<Double>

  /** The printer's table: the hash table from symbols to indexes, when there is
      one, and the next index to hand out, when there is one. */
  datatype Dictionary = Dictionary(table: Option<map<seq<byte>, nat>>, next: Option<nat>)

  /** `out` is what has been written, whether or not an error ended the printing. */
  datatype Printed = Printed(out: seq<byte>, dict: Dictionary, ok: bool)

  /** A C `int` made from a C `long`. */
  function ToInt(n: int): int {
    var u := n % 0x1_0000_0000;
    if u < 0x8000_0000 then u else u - 0x1_0000_0000
  }

  function After(p: Printed, q: Printed): Printed {
    Printed(p.out + q.out, q.dict, q.ok)
  }

  function Write(out: seq<byte>, p: Printed): Printed {
    Printed(out + p.out, p.dict, p.ok)
  }

  function SymbolRecord(name: seq<byte>, dict: Dictionary): Printed {
    if |name| >= TKBUFFERN then Printed([TC_SYMBOL], dict, false)
    else Printed([TC_SYMBOL] + PutLong(|name|) + name, dict, true)
  }

  /** What goes out before a symbol, and whether it has still to be spelled out. */
  function PrintTable(name: seq<byte>, dict: Dictionary): (Printed, bool) {
    if dict.table.None? then (Printed([], dict, true), true)
    else if name in dict.table.value then
      (Printed([FO_FETCH] + PutLong(dict.table.value[name]), dict, true), false)
    else if dict.next.None? then (Printed([], dict, true), true)
    else
      var i := dict.next.value;
      (Printed([FO_STORE] + PutLong(i), Dictionary(Some(dict.table.value[name := i]), Some(i + 1)), true), true)
  }

  function PrintSymbol(name: seq<byte>, dict: Dictionary): (p: Printed)
    ensures p.dict.table.Some? == dict.table.Some?
    ensures p.dict.next.Some? == dict.next.Some?
    ensures dict.next.Some? ==> dict.next.value <= p.dict.next.value <= dict.next.value + 1
  {
    var (p, spell) := PrintTable(name, dict);
    if spell then After(p, SymbolRecord(name, p.dict)) else p
  }

  /** A string or byte array: its length goes through a C `int`. */
  function PrintBytes(code: byte, bytes: seq<byte>, dict: Dictionary): Printed {
    var len := ToInt(|bytes|);
    if len < 0 then Printed([code] + PutLong(len), dict, false)
    else Printed([code] + PutLong(len) + bytes[..len], dict, true)
  }

  function Print(d: Form, dict: Dictionary): (p: Printed)
    ensures p.dict.table.Some? == dict.table.Some?
    ensures p.dict.next.Some? == dict.next.Some?
    ensures dict.next.Some? ==> dict.next.value <= p.dict.next.value <= dict.next.value + Size(d)
    decreases Size(d), 0
  {
    match d
    case Nil => Printed([TC_NIL], dict, true)
    case Cons(a, b) =>
      var end := SpineEnd(d);
      if SpineLength(d) == 1 then
        var p := Print(a, dict);
        if p.ok then Write([TC_CONS], After(p, Print(b, p.dict))) else Write([TC_CONS], p)
      else
        var s := Spine(d);
        var head := [if end.Nil? then FO_LIST else FO_LISTD] + PutLong(|s|);
        var p := PrintMany(s, dict);
        if end.Nil? || !p.ok then Write(head, p)
        else Write(head, After(p, Print(end, p.dict)))
    case Flonum(x) => Printed([TC_FLONUM] + x, dict, true)
    case Symbol(name) => PrintSymbol(name, dict)
    case String(bytes) => PrintBytes(TC_STRING, bytes, dict)
    case ByteArray(bytes) => PrintBytes(TC_BYTE_ARRAY, bytes, dict)
    case LispArray(elems) =>
      var len := ToInt(|elems|);
      if len < 0 then Printed([TC_LISP_ARRAY] + PutLong(len), dict, true)
      else
        SizeOfPrefix(elems, len);
        Write([TC_LISP_ARRAY] + PutLong(len), PrintMany(elems[..len], dict))
  }

  lemma ConsPrints(d: Form, dict: Dictionary)
    requires d.Cons?
    ensures SpineLength(d) == 1 ==>
              var p := Print(d.car, dict);
              Print(d, dict) == Write([TC_CONS], if p.ok then After(p, Print(d.cdr, p.dict)) else p)
    ensures SpineLength(d) != 1 ==>
              var p := PrintMany(Spine(d), dict);
              var end := SpineEnd(d);
              Print(d, dict) == Write([if end.Nil? then FO_LIST else FO_LISTD] + PutLong(SpineLength(d)),
                if end.Nil? || !p.ok then p else After(p, Print(end, p.dict)))
  {
    hide PutLong, PrintMany, Spine, SpineEnd;
  }

  function PrintMany(s: seq<Form>, dict: Dictionary): (p: Printed)
    ensures p.dict.table.Some? == dict.table.Some?
    ensures p.dict.next.Some? == dict.next.Some?
    ensures dict.next.Some? ==> dict.next.value <= p.dict.next.value <= dict.next.value + SizeAll(s)
    decreases SizeAll(s), 1
  {
    if s == [] then Printed([], dict, true)
    else
      var p := Print(s[0], dict);
      if p.ok then After(p, PrintMany(s[1..], p.dict)) else p
  }

  lemma {:induction false} SizeOfPrefix(s: seq<Form>, n: nat)
    requires n <= |s|
    ensures SizeAll(s[..n]) <= SizeAll(s)
  {
    if n > 0 {
      assert s[..n][1..] == s[1..][..n - 1];
      SizeOfPrefix(s[1..], n - 1);
    }
  }

  datatype Fault =
    | Truncated
    | BadLength
    | NameTooLong
    | UnknownOpcode(code: byte)

  /** What one call of the reader comes to.  `AtEnd` is the source's handing back its
      own table at end of file. */
  datatype Reading =
    | Got(value: Form, rest: seq<byte>, table: map<int, Form>)
    | AtEnd(table: map<int, Form>)
    | Broken(why: Fault)

  datatype ReadingMany =
    | GotMany(values: seq<Form>, rest: seq<byte>, table: map<int, Form>)
    | BrokenMany(why: Fault)

  datatype Comment = EndOfFile | EndOfLine(rest: seq<byte>) | FallsThrough(rest: seq<byte>)

  /** A comment runs to the end of its line; a NUL in it drops out of the loop and
      into the case below, FO_FETCH. */
  function SkipComment(s: seq<byte>): (c: Comment)
    ensures !c.EndOfFile? ==> |c.rest| < |s|
  {
    if s == [] then EndOfFile
    else if s[0] == 10 then EndOfLine(s[1..])
    else if s[0] == 0 then FallsThrough(s[1..])
    else SkipComment(s[1..])
  }

  function Fetch(s: seq<byte>, table: map<int, Form>): (r: Reading)
    ensures r.Got? ==> |r.rest| <= |s|
  {
    if |s| < 8 then Broken(Truncated)
    else
      var i := GetLong(s[..8]);
      Got(if i in table then table[i] else Nil, s[8..], table)
  }

  /** A length and that many octets. */
  datatype Block = Block(bytes: seq<byte>, rest: seq<byte>) | NoBlock(why: Fault)

  function ReadBlock(s: seq<byte>, limit: Option<nat>): (b: Block)
    ensures b.Block? ==> |b.rest| < |s|
  {
    if |s| < 8 then NoBlock(Truncated)
    else
      var n := GetLong(s[..8]);
      if limit.Some? && n >= limit.value then NoBlock(NameTooLong)
      else if n < 0 then NoBlock(BadLength)
      else if |s| - 8 < n then NoBlock(Truncated)
      else Block(s[8..8 + n], s[8 + n..])
  }

  function Read(s: seq<byte>, table: map<int, Form>): (r: Reading)
    ensures r.Got? ==> |r.rest| < |s|
    decreases |s|, 0
  {
    if s == [] then AtEnd(table) else ReadAs(s[0], s[1..], table)
  }

  /** Read on, given the opcode `c`. */
  function ReadAs(c: byte, s: seq<byte>, table: map<int, Form>): (r: Reading)
    ensures r.Got? ==> |r.rest| <= |s|
    decreases |s|, 2
  {
    if c == FO_COMMENT then
      match SkipComment(s)
      case EndOfFile => AtEnd(table)
      case EndOfLine(rest) => Read(rest, table)
      case FallsThrough(rest) => Fetch(rest, table)
    else if c == FO_FETCH then Fetch(s, table)
    else if c == FO_STORE then
      if |s| < 8 then Broken(Truncated)
      else
        match Read(s[8..], table)
        case Got(v, rest, t) => Got(v, rest, t[GetLong(s[..8]) := v])
        case AtEnd(_) => Broken(Truncated)
        case Broken(why) => Broken(why)
    else if c == TC_NIL then Got(Nil, s, table)
    else if c == TC_CONS then
      match ReadMany(2, s, table)
      case GotMany(v, rest, t) => Got(Cons(v[0], v[1]), rest, t)
      case BrokenMany(why) => Broken(why)
    else if c == FO_LIST || c == FO_LISTD then
      if |s| < 8 then Broken(Truncated)
      else
        var n := GetLong(s[..8]);
        if n < 1 then Broken(BadLength)
        else
          match ReadMany(if c == FO_LIST then n else n + 1, s[8..], table)
          case GotMany(v, rest, t) =>
            Got(if c == FO_LIST then FromSpine(v, Nil) else FromSpine(v[..n], v[n]), rest, t)
          case BrokenMany(why) => Broken(why)
    else if c == TC_FLONUM then
      if |s| < 8 then Broken(Truncated) else Got(Flonum(s[..8]), s[8..], table)
    else if c == TC_SYMBOL then
      match ReadBlock(s, Some(TKBUFFERN))
      case Block(name, rest) => Got(Symbol(UpToNul(name)), rest, table)
      case NoBlock(why) => Broken(why)
    else if c == TC_STRING then
      match ReadBlock(s, None)
      case Block(bytes, rest) => Got(String(bytes), rest, table)
      case NoBlock(why) => Broken(why)
    else if c == TC_BYTE_ARRAY then
      match ReadBlock(s, None)
      case Block(bytes, rest) => Got(ByteArray(bytes), rest, table)
      case NoBlock(why) => Broken(why)
    else if c == TC_LISP_ARRAY then
      if |s| < 8 then Broken(Truncated)
      else if GetLong(s[..8]) < 0 then Broken(BadLength)
      else
        match ReadMany(GetLong(s[..8]), s[8..], table)
        case GotMany(v, rest, t) => Got(LispArray(v), rest, t)
        case BrokenMany(why) => Broken(why)
    else Broken(UnknownOpcode(c))
  }

  function ReadMany(n: nat, s: seq<byte>, table: map<int, Form>): (r: ReadingMany)
    ensures r.GotMany? ==> |r.values| == n && |r.rest| <= |s|
    decreases |s|, 1, n
  {
    if n == 0 then GotMany([], s, table)
    else
      match Read(s, table)
      case Got(v, rest, t) =>
        (match ReadMany(n - 1, rest, t)
         case GotMany(vs, rest', t') => GotMany([v] + vs, rest', t')
         case BrokenMany(why) => BrokenMany(why))
      case AtEnd(_) => BrokenMany(Truncated)
      case Broken(why) => BrokenMany(why)
  }

  // ---- Reading undoes printing ----------------------------------------------

  /** Forms whose lengths survive the C types they pass through, with C-string names. */
  predicate Storable(d: Form) {
    match d
    case Cons(a, b) => SpineLength(d) <= LAST_EXACT && Storable(a) && Storable(b)
    case Symbol(name) => 0 !in name
    case String(bytes) => |bytes| < 0x8000_0000
    case ByteArray(bytes) => |bytes| < 0x8000_0000
    case LispArray(elems) => |elems| < 0x8000_0000 && StorableAll(elems)
    case _ => true
  }

  predicate StorableAll(s: seq<Form>) {
    forall i :: 0 <= i < |s| ==> Storable(s[i])
  }

  /** The reader's table, from indexes to symbols, is the inverse of the printer's,
      and the next index is a fresh one. */
  ghost predicate InStep(dict: Dictionary, table: map<int, Form>) {
    dict.table.Some? ==>
      && (forall n :: n in dict.table.value ==>
            dict.table.value[n] in table && table[dict.table.value[n]] == Symbol(n))
      && (forall i :: i in table ==>
            && table[i].Symbol?
            && table[i].name in dict.table.value
            && dict.table.value[table[i].name] == i)
      && (forall n :: n in dict.table.value ==> dict.table.value[n] < LAST_EXACT)
      && (dict.next.Some? ==> forall n :: n in dict.table.value ==> dict.table.value[n] < dict.next.value)
  }

  /** The counter has not run past the integers a double can count through. */
  predicate Counts(dict: Dictionary) {
    dict.next.Some? ==> dict.next.value <= LAST_EXACT
  }

  /** Reading `out` in front of `tail` gives `d` and stops right at `tail`, with the
      tables in step again. */
  ghost predicate ReadsTo(out: seq<byte>, tail: seq<byte>, table: map<int, Form>, d: Form, dict: Dictionary) {
    var r := Read(out + tail, table);
    r.Got? && r.value == d && r.rest == tail && InStep(dict, r.table)
  }

  ghost predicate ReadsManyTo(out: seq<byte>, tail: seq<byte>, table: map<int, Form>, s: seq<Form>, dict: Dictionary) {
    var r := ReadMany(|s|, out + tail, table);
    r.GotMany? && r.values == s && r.rest == tail && InStep(dict, r.table)
  }

  lemma BlockReadsBack(bytes: seq<byte>, tail: seq<byte>, limit: Option<nat>)
    requires |bytes| < TWO_63
    requires limit.Some? ==> |bytes| < limit.value
    ensures ReadBlock(PutLong(|bytes|) + bytes + tail, limit) == Block(bytes, tail)
  {
    LongReadsBack(|bytes|);
    var s := PutLong(|bytes|) + bytes + tail;
    assert s[..8] == PutLong(|bytes|);
    assert s[8..8 + |bytes|] == bytes;
    assert s[8 + |bytes|..] == tail;
  }

  lemma RecordReadsBack(name: seq<byte>, dict: Dictionary, table: map<int, Form>, tail: seq<byte>)
    requires 0 !in name && |name| < TKBUFFERN
    ensures Read(SymbolRecord(name, dict).out + tail, table) == Got(Symbol(name), tail, table)
  {
    var out := SymbolRecord(name, dict).out;
    assert (out + tail)[1..] == PutLong(|name|) + name + tail;
    BlockReadsBack(name, tail, Some(TKBUFFERN));
    NoNulName(name);
  }

  lemma FetchReadsBack(i: nat, table: map<int, Form>, tail: seq<byte>)
    requires i in table && i < LAST_EXACT
    ensures Read([FO_FETCH] + PutLong(i) + tail, table) == Got(table[i], tail, table)
  {
    var s := [FO_FETCH] + PutLong(i) + tail;
    LongReadsBack(i);
    assert s[1..] == PutLong(i) + tail;
    assert s[1..][..8] == PutLong(i);
    assert s[1..][8..] == tail;
  }

  lemma StoreReadsBack(i: nat, record: seq<byte>, v: Form, table: map<int, Form>, tail: seq<byte>)
    requires i < LAST_EXACT
    requires Read(record + tail, table) == Got(v, tail, table)
    ensures Read([FO_STORE] + PutLong(i) + record + tail, table) == Got(v, tail, table[i := v])
  {
    var s := [FO_STORE] + PutLong(i) + record + tail;
    LongReadsBack(i);
    assert s[1..] == PutLong(i) + (record + tail);
    assert s[1..][..8] == PutLong(i);
    assert s[1..][8..] == record + tail;
  }

  lemma StoreKeepsStep(dict: Dictionary, table: map<int, Form>, name: seq<byte>)
    requires InStep(dict, table) && dict.table.Some? && dict.next.Some?
    requires name !in dict.table.value && dict.next.value < LAST_EXACT
    ensures var i := dict.next.value;
            InStep(Dictionary(Some(dict.table.value[name := i]), Some(i + 1)), table[i := Symbol(name)])
  {
    var i := dict.next.value;
    assert i !in table;
  }

  lemma SymbolReadsBack(name: seq<byte>, dict: Dictionary, table: map<int, Form>, tail: seq<byte>)
    requires InStep(dict, table) && 0 !in name
    requires var p := PrintSymbol(name, dict); p.ok && Counts(p.dict)
    ensures var p := PrintSymbol(name, dict); ReadsTo(p.out, tail, table, Symbol(name), p.dict)
  {
    hide Read;
    var record := SymbolRecord(name, dict).out;
    assert [] + record == record;
    if dict.table.None? {
      RecordReadsBack(name, dict, table, tail);
    } else if name in dict.table.value {
      FetchReadsBack(dict.table.value[name], table, tail);
    } else if dict.next.None? {
      RecordReadsBack(name, dict, table, tail);
    } else {
      var i := dict.next.value;
      var d2 := Dictionary(Some(dict.table.value[name := i]), Some(i + 1));
      var record := SymbolRecord(name, d2).out;
      RecordReadsBack(name, d2, table, tail);
      StoreReadsBack(i, record, Symbol(name), table, tail);
      StoreKeepsStep(dict, table, name);
      assert PrintSymbol(name, dict).out + tail == [FO_STORE] + PutLong(i) + record + tail;
    }
  }

  lemma {:induction false} StorableSpine(d: Form)
    requires Storable(d)
    ensures StorableAll(Spine(d)) && Storable(SpineEnd(d))
  {
    if d.Cons? {
      StorableSpine(d.cdr);
    }
  }

  /** One more form on the end: what the dotted list and the pair need. */
  lemma {:induction false} PrintOneMore(s: seq<Form>, d: Form, dict: Dictionary)
    ensures SizeAll(s + [d]) == SizeAll(s) + Size(d)
    ensures PrintMany(s + [d], dict) ==
            var p := PrintMany(s, dict); if p.ok then After(p, Print(d, p.dict)) else p
  {
    if s == [] {
      assert s + [d] == [d];
      var p := Print(d, dict);
      assert p.out + [] == p.out;
      assert [] + p.out == p.out;
    } else {
      assert (s + [d])[1..] == s[1..] + [d];
      var p := Print(s[0], dict);
      PrintOneMore(s[1..], d, p.dict);
      var q := PrintMany(s[1..], p.dict);
      if p.ok && q.ok {
        var e := Print(d, q.dict);
        assert p.out + (q.out + e.out) == p.out + q.out + e.out;
      }
    }
  }

  lemma LispArrayOpcode(n: nat, body: seq<byte>, table: map<int, Form>)
    requires n < TWO_63 && ReadMany(n, body, table).GotMany?
    ensures var r := ReadMany(n, body, table);
            Read([TC_LISP_ARRAY] + PutLong(n) + body, table) == Got(LispArray(r.values), r.rest, r.table)
  {
    hide PutLong, GetLong, ReadMany, ReadBlock, SkipComment, Fetch;
    var s := [TC_LISP_ARRAY] + PutLong(n) + body;
    LongReadsBack(n);
    assert s[1..] == PutLong(n) + body;
    assert s[1..][..8] == PutLong(n);
    assert s[1..][8..] == body;
  }

  lemma ListOpcode(n: nat, body: seq<byte>, table: map<int, Form>)
    requires 1 <= n < TWO_63 && ReadMany(n, body, table).GotMany?
    ensures var r := ReadMany(n, body, table);
            Read([FO_LIST] + PutLong(n) + body, table) == Got(FromSpine(r.values, Nil), r.rest, r.table)
  {
    hide PutLong, GetLong, ReadMany, ReadBlock, SkipComment, Fetch, FromSpine;
    var s := [FO_LIST] + PutLong(n) + body;
    LongReadsBack(n);
    assert s[1..] == PutLong(n) + body;
    assert s[1..][..8] == PutLong(n);
    assert s[1..][8..] == body;
  }

  lemma DottedListOpcode(n: nat, body: seq<byte>, table: map<int, Form>)
    requires 1 <= n < TWO_63 && ReadMany(n + 1, body, table).GotMany?
    ensures var r := ReadMany(n + 1, body, table);
            Read([FO_LISTD] + PutLong(n) + body, table)
            == Got(FromSpine(r.values[..n], r.values[n]), r.rest, r.table)
  {
    hide PutLong, GetLong, ReadMany, ReadBlock, SkipComment, Fetch, FromSpine;
    var s := [FO_LISTD] + PutLong(n) + body;
    LongReadsBack(n);
    assert s[1..] == PutLong(n) + body;
    assert s[1..][..8] == PutLong(n);
    assert s[1..][8..] == body;
  }

  lemma PairOpcode(body: seq<byte>, table: map<int, Form>)
    requires ReadMany(2, body, table).GotMany?
    ensures var r := ReadMany(2, body, table);
            Read([TC_CONS] + body, table) == Got(Cons(r.values[0], r.values[1]), r.rest, r.table)
  {
    hide GetLong, ReadMany, ReadBlock, SkipComment, Fetch;
    assert ([TC_CONS] + body)[1..] == body;
  }

  lemma BytesOpcode(d: Form, tail: seq<byte>, table: map<int, Form>)
    requires (d.String? || d.ByteArray?) && |d.bytes| < TWO_63
    ensures Read([if d.String? then TC_STRING else TC_BYTE_ARRAY] + PutLong(|d.bytes|) + d.bytes + tail, table)
            == Got(d, tail, table)
  {
    hide PutLong, GetLong, ReadMany, ReadBlock, SkipComment, Fetch;
    var s := [if d.String? then TC_STRING else TC_BYTE_ARRAY] + PutLong(|d.bytes|) + d.bytes + tail;
    BlockReadsBack(d.bytes, tail, None);
    assert s[1..] == PutLong(|d.bytes|) + d.bytes + tail;
  }

  lemma NilOpcode(tail: seq<byte>, table: map<int, Form>)
    ensures Read([TC_NIL] + tail, table) == Got(Nil, tail, table)
  {
  }

  lemma FlonumOpcode(x: Double, tail: seq<byte>, table: map<int, Form>)
    ensures Read([TC_FLONUM] + x + tail, table) == Got(Flonum(x), tail, table)
  {
    hide PutLong, GetLong, ReadMany, ReadBlock, SkipComment, Fetch;
    var s := [TC_FLONUM] + x + tail;
    assert s[1..] == x + tail;
    assert s[1..][..8] == x;
    assert s[1..][8..] == tail;
  }

  lemma AtomReadsBack(d: Form, dict: Dictionary, table: map<int, Form>, tail: seq<byte>)
    requires InStep(dict, table) && Storable(d) && (d.Nil? || d.Flonum? || d.String? || d.ByteArray?)
    ensures var p := Print(d, dict); p.ok && ReadsTo(p.out, tail, table, d, p.dict)
  {
    hide InStep, PutLong, Read;
    var out := Print(d, dict).out;
    if d.Nil? {
      NilOpcode(tail, table);
    } else if d.Flonum? {
      FlonumOpcode(d.value, tail, table);
    } else {
      BytesOpcode(d, tail, table);
      assert out + tail == [if d.String? then TC_STRING else TC_BYTE_ARRAY] + PutLong(|d.bytes|) + d.bytes + tail;
    }
  }

  lemma {:induction false} ArrayReadsBack(d: Form, dict: Dictionary, table: map<int, Form>, tail: seq<byte>)
    requires d.LispArray? && InStep(dict, table) && Storable(d)
    requires var p := Print(d, dict); p.ok && Counts(p.dict)
    ensures var p := Print(d, dict); ReadsTo(p.out, tail, table, d, p.dict)
    decreases Size(d), 0
  {
    hide Read, ReadMany, InStep, PrintMany, PutLong, StorableAll;
    var n := |d.elems|;
    assert d.elems[..n] == d.elems;
    var q := PrintMany(d.elems, dict);
    ReadsManyBack(d.elems, dict, table, tail);
    LispArrayOpcode(n, q.out + tail, table);
    assert Print(d, dict).out + tail == [TC_LISP_ARRAY] + PutLong(n) + (q.out + tail);
  }

  lemma PrintPair(d: Form, dict: Dictionary)
    requires SpineLength(d) == 1
    ensures Print(d, dict) == Write([TC_CONS], PrintMany([d.car, d.cdr], dict))
    ensures SizeAll([d.car, d.cdr]) < Size(d)
  {
    PrintOneMore([], d.car, dict);
    PrintOneMore([d.car], d.cdr, dict);
    assert [] + [d.car] == [d.car];
    assert [d.car] + [d.cdr] == [d.car, d.cdr];
    assert [] + Print(d.car, dict).out == Print(d.car, dict).out;
  }

  lemma {:induction false} PairReadsBack(d: Form, dict: Dictionary, table: map<int, Form>, tail: seq<byte>)
    requires SpineLength(d) == 1 && InStep(dict, table) && Storable(d)
    requires var p := Print(d, dict); p.ok && Counts(p.dict)
    ensures var p := Print(d, dict); ReadsTo(p.out, tail, table, d, p.dict)
    decreases Size(d), 0
  {
    hide Read, ReadMany, InStep, PrintMany, Print;
    PrintPair(d, dict);
    var both := [d.car, d.cdr];
    var q := PrintMany(both, dict);
    ReadsManyBack(both, dict, table, tail);
    PairOpcode(q.out + tail, table);
    assert Print(d, dict).out + tail == [TC_CONS] + (q.out + tail);
  }

  lemma PrintLong(d: Form, dict: Dictionary)
    requires SpineLength(d) > 1
    ensures var end := SpineEnd(d);
            var all := if end.Nil? then Spine(d) else Spine(d) + [end];
            && SizeAll(all) < Size(d)
            && Print(d, dict)
               == Write([if end.Nil? then FO_LIST else FO_LISTD] + PutLong(SpineLength(d)), PrintMany(all, dict))
  {
    hide PrintMany, PutLong, SpineEnd;
    PrintOneMore(Spine(d), SpineEnd(d), dict);
  }

  lemma {:induction false} ListReadsBack(d: Form, dict: Dictionary, table: map<int, Form>, tail: seq<byte>)
    requires SpineLength(d) > 1 && InStep(dict, table) && Storable(d)
    requires var p := Print(d, dict); p.ok && Counts(p.dict)
    ensures var p := Print(d, dict); ReadsTo(p.out, tail, table, d, p.dict)
    decreases Size(d), 0
  {
    hide Read, ReadMany, InStep, PrintMany, Print, PutLong, SpineEnd, Spine, FromSpine;
    var s, end, n := Spine(d), SpineEnd(d), SpineLength(d);
    StorableSpine(d);
    SpineRebuilds(d);
    var all := if end.Nil? then s else s + [end];
    PrintLong(d, dict);
    ReadsManyBack(all, dict, table, tail);
    var body := PrintMany(all, dict).out + tail;
    if end.Nil? {
      ListOpcode(n, body, table);
      assert Print(d, dict).out + tail == [FO_LIST] + PutLong(n) + body;
    } else {
      DottedListOpcode(n, body, table);
      assert Print(d, dict).out + tail == [FO_LISTD] + PutLong(n) + body;
      assert all[..n] == s;
    }
  }

  /** The main theorem for one form: whatever is printed reads back as the same form,
      nothing of it is left over, and the two tables stay inverse to each other. */
  lemma {:induction false} ReadsBack(d: Form, dict: Dictionary, table: map<int, Form>, tail: seq<byte>)
    requires InStep(dict, table) && Storable(d)
    requires var p := Print(d, dict); p.ok && Counts(p.dict)
    ensures var p := Print(d, dict); ReadsTo(p.out, tail, table, d, p.dict)
    decreases Size(d), 1
  {
    hide InStep, ReadsTo, Storable;
    match d
    case Symbol(name) =>
      NoNulInSymbol(name);
      SymbolReadsBack(name, dict, table, tail);
    case LispArray(_) =>
      ArrayReadsBack(d, dict, table, tail);
    case Cons(_, _) =>
      if SpineLength(d) == 1 {
        PairReadsBack(d, dict, table, tail);
      } else {
        ListReadsBack(d, dict, table, tail);
      }
    case _ =>
      AtomReadsBack(d, dict, table, tail);
  }

  lemma NoNulInSymbol(name: seq<byte>)
    requires Storable(Symbol(name))
    ensures 0 !in name
  {
  }

  lemma ReadOneMore(s: seq<byte>, v: Form, rest: seq<byte>, t: map<int, Form>, n: nat, table: map<int, Form>)
    requires Read(s, table) == Got(v, rest, t) && ReadMany(n, rest, t).GotMany?
    ensures var r := ReadMany(n, rest, t);
            ReadMany(n + 1, s, table) == GotMany([v] + r.values, r.rest, r.table)
  {
    hide Read;
  }

  lemma PrintManyParts(s: seq<Form>, dict: Dictionary, tail: seq<byte>)
    requires s != [] && PrintMany(s, dict).ok
    ensures var p := Print(s[0], dict);
            var q := PrintMany(s[1..], p.dict);
            && p.ok && q.ok
            && PrintMany(s, dict).dict == q.dict
            && PrintMany(s, dict).out + tail == p.out + (q.out + tail)
  {
    hide Print;
  }

  lemma StorableParts(s: seq<Form>)
    requires StorableAll(s) && s != []
    ensures Storable(s[0]) && StorableAll(s[1..])
  {
  }

  lemma {:induction false} ReadsManyBack(s: seq<Form>, dict: Dictionary, table: map<int, Form>, tail: seq<byte>)
    requires InStep(dict, table) && StorableAll(s)
    requires var p := PrintMany(s, dict); p.ok && Counts(p.dict)
    ensures var p := PrintMany(s, dict); ReadsManyTo(p.out, tail, table, s, p.dict)
    decreases SizeAll(s), 2
  {
    if s == [] {
      hide InStep, StorableAll;
      assert PrintMany(s, dict).out + tail == tail;
    } else {
      hide InStep, Print, Read, PrintMany, ReadMany, Storable, StorableAll;
      PrintManyParts(s, dict, tail);
      StorableParts(s);
      var p := Print(s[0], dict);
      var q := PrintMany(s[1..], p.dict);
      ReadsBack(s[0], dict, table, q.out + tail);
      var r := Read(p.out + (q.out + tail), table);
      ReadsManyBack(s[1..], p.dict, r.table, tail);
      ReadOneMore(p.out + (q.out + tail), s[0], q.out + tail, r.table, |s| - 1, table);
      assert [s[0]] + s[1..] == s;
    }
  }

  // ---- Whole files ------------------------------------------------------------

  datatype Loaded = Loaded(forms: seq<Form>, table: map<int, Form>) | LoadFailed(why: Fault)

  /** Call the reader until it reports end of file. */
  function ReadAll(s: seq<byte>, table: map<int, Form>): Loaded
    decreases |s|
  {
    match Read(s, table)
    case Got(v, rest, t) =>
      (match ReadAll(rest, t)
       case Loaded(vs, t') => Loaded([v] + vs, t')
       case LoadFailed(why) => LoadFailed(why))
    case AtEnd(t) => Loaded([], t)
    case Broken(why) => LoadFailed(why)
  }

  /** A stream of forms reads back in order with nothing left unread. */
  lemma {:induction false} StreamReadsBack(s: seq<Form>, dict: Dictionary, table: map<int, Form>)
    requires InStep(dict, table) && StorableAll(s)
    requires var p := PrintMany(s, dict); p.ok && Counts(p.dict)
    ensures var p := PrintMany(s, dict);
            var l := ReadAll(p.out, table);
            l.Loaded? && l.forms == s && InStep(p.dict, l.table)
  {
    if s == [] {
      hide InStep, StorableAll;
      assert Read([], table) == AtEnd(table);
    } else {
      hide InStep, Print, Read, PrintMany, Storable, StorableAll;
      PrintManyParts(s, dict, []);
      StorableParts(s);
      var p := Print(s[0], dict);
      var q := PrintMany(s[1..], p.dict);
      assert q.out + [] == q.out && PrintMany(s, dict).out + [] == PrintMany(s, dict).out;
      ReadsBack(s[0], dict, table, q.out);
      var r := Read(p.out + q.out, table);
      StreamReadsBack(s[1..], p.dict, r.table);
      assert [s[0]] + s[1..] == s;
    }
  }

  function CommentLine(text: string): seq<byte> {
    [FO_COMMENT] + Ascii(text) + [10]
  }

  /** The lines of the header that say how numbers look in memory. */
  function Samples(): seq<byte> {
    CommentLine(" 1 = 0100000000000000") + CommentLine(" 1.0 = 000000000000F03F")
  }

  /** What `siod_fast_save` writes in front of the forms. */
  function Header(): seq<byte> {
    CommentLine(" Siod Binary Object Save File")
    + (CommentLine(" sizeof(long) = 8")
    + (CommentLine(" sizeof(double) = 8") + Samples()))
  }

  function NewDictionary(nohash: bool): Dictionary {
    Dictionary(if nohash then None else Some(map[]), Some(0))
  }

  function Save(forms: seq<Form>, nohash: bool, comment: seq<byte>): Printed {
    Write(comment + Header(), PrintMany(forms, NewDictionary(nohash)))
  }

  function Load(s: seq<byte>): Loaded {
    ReadAll(s, map[])
  }

  /** Text the reader steps over: whole comment lines. */
  predicate CommentLines(c: seq<byte>)
    decreases |c|
  {
    c == [] ||
    (c[0] == FO_COMMENT &&
     var k := SkipComment(c[1..]); k.EndOfLine? && CommentLines(k.rest))
  }

  lemma {:induction false} SkipThrough(text: seq<byte>, s: seq<byte>)
    requires 0 !in text && 10 !in text
    ensures SkipComment(text + [10] + s) == EndOfLine(s)
  {
    if text == [] {
      assert text + [10] + s == [10] + s;
    } else {
      SkipThrough(text[1..], s);
      assert (text + [10] + s)[1..] == text[1..] + [10] + s;
    }
  }

  lemma {:induction false} SkipPrefix(c: seq<byte>, s: seq<byte>)
    requires SkipComment(c).EndOfLine?
    ensures SkipComment(c + s) == EndOfLine(SkipComment(c).rest + s)
  {
    if c[0] == 10 {
      assert (c + s)[1..] == c[1..] + s;
    } else {
      SkipPrefix(c[1..], s);
      assert (c + s)[1..] == c[1..] + s;
    }
  }

  lemma CommentOpcode(s: seq<byte>, table: map<int, Form>)
    requires s != [] && s[0] == FO_COMMENT && SkipComment(s[1..]).EndOfLine?
    ensures Read(s, table) == Read(SkipComment(s[1..]).rest, table)
  {
    hide ReadMany, ReadBlock, Fetch, SkipComment, GetLong;
  }

  lemma {:induction false} CommentsAreSkipped(c: seq<byte>, s: seq<byte>, table: map<int, Form>)
    requires CommentLines(c)
    ensures Read(c + s, table) == Read(s, table)
    decreases |c|
  {
    hide Read, SkipComment;
    if c == [] {
      assert c + s == s;
    } else {
      var k := SkipComment(c[1..]);
      SkipPrefix(c[1..], s);
      assert (c + s)[1..] == c[1..] + s;
      CommentOpcode(c + s, table);
      CommentsAreSkipped(k.rest, s, table);
    }
  }

  lemma LineThen(text: string, c: seq<byte>)
    requires forall i :: 0 <= i < |text| ==> 32 <= text[i] as int < 127
    requires CommentLines(c)
    ensures CommentLines(CommentLine(text) + c)
  {
    hide CommentLines;
    SkipThrough(Ascii(text), c);
    assert (CommentLine(text) + c)[1..] == Ascii(text) + [10] + c;
    IsCommentLines(CommentLine(text) + c, c);
  }

  lemma IsCommentLines(c: seq<byte>, rest: seq<byte>)
    requires c != [] && c[0] == FO_COMMENT && SkipComment(c[1..]) == EndOfLine(rest) && CommentLines(rest)
    ensures CommentLines(c)
  {
    hide SkipComment;
  }

  lemma SamplesAreComments()
    ensures CommentLines(Samples())
  {
    hide CommentLines, CommentLine, Ascii, SkipComment;
    NoLines();
    var h := CommentLine(" 1.0 = 000000000000F03F");
    LineThen(" 1.0 = 000000000000F03F", []);
    assert h + [] == h;
    LineThen(" 1 = 0100000000000000", h);
  }

  lemma HeaderIsComments()
    ensures CommentLines(Header())
  {
    hide CommentLines, CommentLine, Ascii, SkipComment, Samples;
    SamplesAreComments();
    var h3 := CommentLine(" sizeof(double) = 8") + Samples();
    LineThen(" sizeof(double) = 8", Samples());
    var h2 := CommentLine(" sizeof(long) = 8") + h3;
    LineThen(" sizeof(long) = 8", h3);
    LineThen(" Siod Binary Object Save File", h2);
  }

  lemma NoLines()
    ensures CommentLines([])
  {
  }

  lemma CommentLinesParts(c: seq<byte>)
    requires CommentLines(c) && c != []
    ensures c[0] == FO_COMMENT && SkipComment(c[1..]).EndOfLine? && CommentLines(SkipComment(c[1..]).rest)
  {
    hide SkipComment;
  }

  lemma {:induction false} LinesJoin(c: seq<byte>, d: seq<byte>)
    requires CommentLines(c) && CommentLines(d)
    ensures CommentLines(c + d)
    decreases |c|
  {
    hide SkipComment, CommentLines;
    if c == [] {
      assert c + d == d;
    } else {
      CommentLinesParts(c);
      var k := SkipComment(c[1..]);
      SkipPrefix(c[1..], d);
      assert (c + d)[1..] == c[1..] + d;
      LinesJoin(k.rest, d);
      IsCommentLines(c + d, k.rest + d);
    }
  }

  // ---- Exactly when printing succeeds ------------------------------------------

  predicate Known(name: seq<byte>, dict: Dictionary) {
    dict.table.Some? && name in dict.table.value
  }

  /** Every symbol is short enough, or is in the table already and so not spelled out. */
  predicate NamesFit(d: Form, dict: Dictionary) {
    match d
    case Cons(a, b) => NamesFit(a, dict) && NamesFit(b, dict)
    case Symbol(name) => |name| < TKBUFFERN || Known(name, dict)
    case LispArray(elems) => NamesFitAll(elems, dict)
    case _ => true
  }

  predicate NamesFitAll(s: seq<Form>, dict: Dictionary) {
    forall i :: 0 <= i < |s| ==> NamesFit(s[i], dict)
  }

  /** The same over-long names are known. */
  ghost predicate SameLong(a: Dictionary, b: Dictionary) {
    forall n :: |n| >= TKBUFFERN ==> (Known(n, a) <==> Known(n, b))
  }

  lemma {:induction false} FitUnchanged(d: Form, a: Dictionary, b: Dictionary)
    requires SameLong(a, b)
    ensures NamesFit(d, a) <==> NamesFit(d, b)
  {
    match d
    case Cons(x, y) =>
      FitUnchanged(x, a, b);
      FitUnchanged(y, a, b);
    case LispArray(elems) =>
      forall i | 0 <= i < |elems| ensures NamesFit(elems[i], a) <==> NamesFit(elems[i], b) {
        FitUnchanged(elems[i], a, b);
      }
    case _ =>
  }

  lemma FitAllUnchanged(s: seq<Form>, a: Dictionary, b: Dictionary)
    requires SameLong(a, b)
    ensures NamesFitAll(s, a) <==> NamesFitAll(s, b)
  {
    hide NamesFit;
    forall i | 0 <= i < |s| ensures NamesFit(s[i], a) <==> NamesFit(s[i], b) {
      FitUnchanged(s[i], a, b);
    }
  }

  lemma {:induction false} FitSpine(d: Form, dict: Dictionary)
    ensures NamesFit(d, dict) <==> NamesFitAll(Spine(d), dict) && NamesFit(SpineEnd(d), dict)
  {
    if d.Cons? {
      FitSpine(d.cdr, dict);
      var s := Spine(d);
      assert s[1..] == Spine(d.cdr);
      FitAllParts(s, dict);
    } else {
      assert NamesFitAll(Spine(d), dict);
    }
  }

  lemma FitAllParts(s: seq<Form>, dict: Dictionary)
    requires s != []
    ensures NamesFitAll(s, dict) <==> NamesFit(s[0], dict) && NamesFitAll(s[1..], dict)
  {
    hide NamesFit;
    if NamesFit(s[0], dict) && NamesFitAll(s[1..], dict) {
      forall i | 0 <= i < |s| ensures NamesFit(s[i], dict) {
        assert i > 0 ==> s[i] == s[1..][i - 1];
      }
    }
  }

  ghost predicate Prints(d: Form, dict: Dictionary) {
    var p := Print(d, dict);
    (p.ok <==> NamesFit(d, dict)) && (p.ok ==> SameLong(dict, p.dict))
  }

  ghost predicate PrintsAll(s: seq<Form>, dict: Dictionary) {
    var p := PrintMany(s, dict);
    (p.ok <==> NamesFitAll(s, dict)) && (p.ok ==> SameLong(dict, p.dict))
  }

  lemma FitOneMore(s: seq<Form>, e: Form, dict: Dictionary)
    ensures NamesFitAll(s + [e], dict) <==> NamesFitAll(s, dict) && NamesFit(e, dict)
  {
    hide NamesFit;
    var all := s + [e];
    assert forall i :: 0 <= i < |s| ==> all[i] == s[i];
    assert all[|s|] == e;
  }

  lemma NilFits(dict: Dictionary)
    ensures NamesFit(Nil, dict)
  {
  }

  /** A cons prints as some header and a list of smaller forms with the same names. */
  lemma ConsPrintsAsList(d: Form, dict: Dictionary) returns (head: seq<byte>, all: seq<Form>)
    requires d.Cons? && Storable(d)
    ensures Print(d, dict) == Write(head, PrintMany(all, dict)) && SizeAll(all) < Size(d)
    ensures StorableAll(all) && (NamesFit(d, dict) <==> NamesFitAll(all, dict))
  {
    if SpineLength(d) == 1 {
      hide Print, PrintMany, SpineLength;
      PrintPair(d, dict);
      head, all := [TC_CONS], [d.car, d.cdr];
      FitOneMore([d.car], d.cdr, dict);
      assert [d.car] + [d.cdr] == all;
    } else {
      hide Print, PrintMany, NamesFit, NamesFitAll, Storable;
      var s, end := Spine(d), SpineEnd(d);
      StorableSpine(d);
      FitSpine(d, dict);
      FitOneMore(s, end, dict);
      NilFits(dict);
      PrintLong(d, dict);
      head := [if end.Nil? then FO_LIST else FO_LISTD] + PutLong(SpineLength(d));
      all := if end.Nil? then s else s + [end];
    }
  }

  lemma SymbolPrintsExactly(name: seq<byte>, dict: Dictionary)
    ensures Prints(Symbol(name), dict)
  {
    hide PutLong;
  }

  lemma AtomPrintsExactly(d: Form, dict: Dictionary)
    requires Storable(d) && !d.Cons? && !d.LispArray?
    ensures Prints(d, dict)
  {
    hide PutLong, PrintSymbol;
    if d.Symbol? {
      SymbolPrintsExactly(d.name, dict);
    }
  }

  lemma ArrayPrintsAsList(d: Form, dict: Dictionary)
    requires Storable(d) && d.LispArray?
    ensures Print(d, dict) == Write([TC_LISP_ARRAY] + PutLong(|d.elems|), PrintMany(d.elems, dict))
    ensures StorableAll(d.elems) && (NamesFit(d, dict) <==> NamesFitAll(d.elems, dict))
  {
    hide PrintMany, PutLong;
    assert d.elems[..|d.elems|] == d.elems;
  }

  /** The only error there is: a symbol too long for the token buffer that has to be
      spelled out. */
  lemma {:induction false} PrintsExactlyWhenNamesFit(d: Form, dict: Dictionary)
    requires Storable(d)
    ensures Prints(d, dict)
    decreases Size(d), 0
  {
    hide SameLong, NamesFitAll, NamesFit, PrintMany, Print, Storable;
    if d.Cons? {
      var head, all := ConsPrintsAsList(d, dict);
      ManyPrintExactly(all, dict);
    } else if d.LispArray? {
      ArrayPrintsAsList(d, dict);
      ManyPrintExactly(d.elems, dict);
    } else {
      AtomPrintsExactly(d, dict);
    }
  }

  lemma {:induction false} ManyPrintExactly(s: seq<Form>, dict: Dictionary)
    requires StorableAll(s)
    ensures PrintsAll(s, dict)
    decreases SizeAll(s), 1
  {
    if s != [] {
      hide NamesFitAll, NamesFit, Print, StorableAll, Storable, SizeAll;
      StorableParts(s);
      SizeParts(s);
      var p := Print(s[0], dict);
      PrintsExactlyWhenNamesFit(s[0], dict);
      FitAllParts(s, dict);
      if p.ok {
        ManyPrintExactly(s[1..], p.dict);
        FitAllUnchanged(s[1..], dict, p.dict);
      }
    }
  }

  lemma SizeParts(s: seq<Form>)
    requires s != []
    ensures Size(s[0]) <= SizeAll(s) && SizeAll(s[1..]) < SizeAll(s)
  {
  }

  /** Saving a file and loading it gives back the forms, in order, with or without the
      hash table, exactly when no symbol is longer than the token buffer allows. */
  lemma SavedFileLoads(forms: seq<Form>, nohash: bool, comment: seq<byte>)
    requires StorableAll(forms) && CommentLines(comment)
    requires SizeAll(forms) <= LAST_EXACT
    ensures var p := Save(forms, nohash, comment);
            && (p.ok <==> NamesFitAll(forms, NewDictionary(true)))
            && (p.ok ==> var l := Load(p.out); l.Loaded? && l.forms == forms)
  {
    hide PrintMany, NamesFitAll, StorableAll, Read, Header, CommentLines;
    var dict := NewDictionary(nohash);
    ManyPrintExactly(forms, dict);
    FitAllUnchanged(forms, dict, NewDictionary(true));
    var p := PrintMany(forms, dict);
    if p.ok {
      StreamReadsBack(forms, dict, map[]);
      HeaderIsComments();
      LinesJoin(comment, Header());
      CommentsAreSkipped(comment + Header(), p.out, map[]);
    }
  }

  // ---- Where reading does not undo printing --------------------------------------

  /** A string or byte array comes back whole exactly when a C `int` holds its length. */
  lemma BytesReadBackExactly(d: Form, dict: Dictionary, table: map<int, Form>, tail: seq<byte>)
    requires (d.String? || d.ByteArray?) && InStep(dict, table)
    ensures var p := Print(d, dict);
            (p.ok && ReadsTo(p.out, tail, table, d, p.dict)) <==> |d.bytes| < 0x8000_0000
  {
    hide InStep, Read;
    if |d.bytes| < 0x8000_0000 {
      AtomReadsBack(d, dict, table, tail);
    } else {
      var p := Print(d, dict);
      var len := ToInt(|d.bytes|);
      if p.ok {
        var cut := d.bytes[..len];
        var e: Form := if d.String? then String(cut) else ByteArray(cut);
        BytesOpcode(e, tail, table);
        assert p.out + tail == [if e.String? then TC_STRING else TC_BYTE_ARRAY] + PutLong(|e.bytes|) + e.bytes + tail;
      }
    }
  }

  /** So one octet is left of a string of 2^32 + 1. */
  lemma LongStringIsCut(dict: Dictionary)
    ensures var d: Form := String(seq(0x1_0000_0001, _ => 65));
            var p := Print(d, dict);
            p.ok && Read(p.out, map[]) == Got(String([65]), [], map[])
  {
    hide PutLong, Read;
    var d: Form := String(seq(0x1_0000_0001, _ => 65));
    var p := Print(d, dict);
    assert ToInt(|d.bytes|) == 1 && d.bytes[..1] == [65];
    var e: Form := String([65]);
    BytesOpcode(e, [], map[]);
    assert p.out == [TC_STRING] + PutLong(|e.bytes|) + e.bytes + [];
  }

  // ---- After a refusal -----------------------------------------------------------

  /** What is in the file when the forms have been printed one after the other, and the
      printing went on after those that an error cut short. */
  function PrintAnyway(s: seq<Form>, dict: Dictionary): seq<byte> {
    if s == [] then []
    else
      var p := Print(s[0], dict);
      p.out + PrintAnyway(s[1..], p.dict)
  }

  /** No symbol is too long for the token buffer. */
  predicate Short(d: Form) {
    match d
    case Cons(a, b) => Short(a) && Short(b)
    case Symbol(name) => |name| < TKBUFFERN
    case LispArray(elems) => forall i :: 0 <= i < |elems| ==> Short(elems[i])
    case _ => true
  }

  predicate AllShort(s: seq<Form>) {
    forall i :: 0 <= i < |s| ==> Short(s[i])
  }

  ghost predicate ShortTable(table: map<int, Form>) {
    forall i :: i in table ==> Short(table[i])
  }

  lemma {:induction false} UpToNulShrinks(s: seq<byte>)
    ensures |UpToNul(s)| <= |s|
  {
    if s != [] && s[0] != 0 {
      UpToNulShrinks(s[1..]);
    }
  }

  lemma {:induction false} SpineShort(s: seq<Form>, end: Form)
    requires AllShort(s) && Short(end)
    ensures Short(FromSpine(s, end))
  {
    if s != [] {
      SpineShort(s[1..], end);
    }
  }

  ghost predicate ReadsShort(r: Reading) {
    r.Got? ==> Short(r.value) && ShortTable(r.table)
  }

  /** Whatever the file holds, the reader comes up with no symbol too long for its token
      buffer. */
  lemma {:induction false} ReadIsShort(s: seq<byte>, table: map<int, Form>)
    requires ShortTable(table)
    ensures ReadsShort(Read(s, table))
    decreases |s|, 0
  {
    hide ReadAs, ShortTable;
    if s != [] {
      ReadAsIsShort(s[0], s[1..], table);
    }
  }

  lemma {:induction false} ReadAsIsShort(c: byte, s: seq<byte>, table: map<int, Form>)
    requires ShortTable(table)
    ensures ReadsShort(ReadAs(c, s, table))
    decreases |s|, 2
  {
    hide Read, ReadMany, ReadBlock, GetLong, AllShort, FromSpine, UpToNul;
    if c == FO_COMMENT {
      var k := SkipComment(s);
      if k.EndOfLine? {
        ReadIsShort(k.rest, table);
      }
    } else if c == FO_STORE && |s| >= 8 {
      ReadIsShort(s[8..], table);
    } else if c == TC_CONS {
      ManyAreShort(2, s, table);
      PairShort(ReadMany(2, s, table));
    } else if (c == FO_LIST || c == FO_LISTD) && |s| >= 8 {
      var n := GetLong(s[..8]);
      if n >= 1 {
        var m := if c == FO_LIST then n else n + 1;
        ManyAreShort(m, s[8..], table);
        ListShort(ReadMany(m, s[8..], table), n);
      }
    } else if c == TC_SYMBOL {
      NameShort(s);
    } else if c == TC_LISP_ARRAY && |s| >= 8 && GetLong(s[..8]) >= 0 {
      ManyAreShort(GetLong(s[..8]), s[8..], table);
      ArrayShort(ReadMany(GetLong(s[..8]), s[8..], table));
    }
  }

  lemma PairShort(r: ReadingMany)
    requires r.GotMany? ==> AllShort(r.values)
    ensures r.GotMany? && |r.values| == 2 ==> Short(r.values[0]) && Short(r.values[1])
  {
  }

  lemma ArrayShort(r: ReadingMany)
    requires r.GotMany? ==> AllShort(r.values)
    ensures r.GotMany? ==> Short(LispArray(r.values))
  {
  }

  lemma ListShort(r: ReadingMany, n: nat)
    requires r.GotMany? ==> AllShort(r.values)
    ensures r.GotMany? && n == |r.values| ==> Short(FromSpine(r.values, Nil))
    ensures r.GotMany? && n + 1 == |r.values| ==> Short(FromSpine(r.values[..n], r.values[n]))
  {
    if r.GotMany? && n == |r.values| {
      SpineShort(r.values, Nil);
    }
    if r.GotMany? && n + 1 == |r.values| {
      SpineShort(r.values[..n], r.values[n]);
    }
  }

  lemma NameShort(s: seq<byte>)
    ensures var b := ReadBlock(s, Some(TKBUFFERN)); b.Block? ==> |UpToNul(b.bytes)| < TKBUFFERN
  {
    hide GetLong;
    var b := ReadBlock(s, Some(TKBUFFERN));
    if b.Block? {
      UpToNulShrinks(b.bytes);
    }
  }

  lemma {:induction false} ManyAreShort(n: nat, s: seq<byte>, table: map<int, Form>)
    requires ShortTable(table)
    ensures var r := ReadMany(n, s, table); r.GotMany? ==> AllShort(r.values) && ShortTable(r.table)
    decreases |s|, 1, n
  {
    hide Read, ShortTable, Short;
    if n > 0 {
      ReadIsShort(s, table);
      var r := Read(s, table);
      if r.Got? {
        ManyAreShort(n - 1, r.rest, r.table);
      }
    }
  }

  lemma {:induction false} LoadsShort(s: seq<byte>, table: map<int, Form>)
    requires ShortTable(table)
    ensures var l := ReadAll(s, table); l.Loaded? ==> AllShort(l.forms)
    decreases |s|
  {
    hide Read, ShortTable, Short;
    ReadIsShort(s, table);
    var r := Read(s, table);
    if r.Got? {
      LoadsShort(r.rest, r.table);
    }
  }

  /** Where no over-long name is in the table, the names that fit are the short ones. */
  lemma {:induction false} FitsIfShort(d: Form, dict: Dictionary)
    requires forall n :: |n| >= TKBUFFERN ==> !Known(n, dict)
    ensures NamesFit(d, dict) <==> Short(d)
  {
    match d
    case Cons(a, b) =>
      FitsIfShort(a, dict);
      FitsIfShort(b, dict);
    case LispArray(elems) =>
      forall i | 0 <= i < |elems| ensures NamesFit(elems[i], dict) <==> Short(elems[i]) {
        FitsIfShort(elems[i], dict);
      }
    case _ =>
  }

  lemma KnownAreShort(dict: Dictionary, table: map<int, Form>, n: seq<byte>)
    requires InStep(dict, table) && ShortTable(table) && |n| >= TKBUFFERN
    ensures !Known(n, dict)
  {
  }

  lemma {:induction false} AnywayIsWhole(s: seq<Form>, dict: Dictionary)
    requires PrintMany(s, dict).ok
    ensures PrintAnyway(s, dict) == PrintMany(s, dict).out
  {
    hide Print;
    if s != [] {
      AnywayIsWhole(s[1..], Print(s[0], dict).dict);
    }
  }

  /** A stream of forms, printed with or without errors on the way, reads back as those
      forms exactly when every symbol fits the token buffer.  A symbol that was refused is
      never read back, neither where it was to be spelled out nor from the references that
      the printer, which has it in its table, goes on to write for it without an error. */
  lemma StreamReadsBackExactly(s: seq<Form>, dict: Dictionary, table: map<int, Form>)
    requires InStep(dict, table) && ShortTable(table) && StorableAll(s)
    requires dict.next.Some? ==> dict.next.value + SizeAll(s) <= LAST_EXACT
    ensures var l := ReadAll(PrintAnyway(s, dict), table);
            (l.Loaded? && l.forms == s) <==> AllShort(s)
  {
    hide Print, PrintMany, PrintAnyway, ReadAll, Read, Storable, StorableAll, Short, NamesFit, InStep, SizeAll;
    forall n: seq<byte> | |n| >= TKBUFFERN ensures !Known(n, dict) {
      KnownAreShort(dict, table, n);
    }
    forall i | 0 <= i < |s| ensures NamesFit(s[i], dict) <==> Short(s[i]) {
      FitsIfShort(s[i], dict);
    }
    LoadsShort(PrintAnyway(s, dict), table);
    ManyPrintExactly(s, dict);
    if AllShort(s) {
      AnywayIsWhole(s, dict);
      StreamReadsBack(s, dict, table);
    }
  }

  /** A reference to a symbol that has been refused is written without an error. */
  lemma RefusedNameIsFetched(name: seq<byte>, dict: Dictionary)
    requires |name| >= TKBUFFERN && dict.table.Some? && dict.next.Some? && !Known(name, dict)
    ensures var p := PrintSymbol(name, dict);
            !p.ok && PrintSymbol(name, p.dict) == Printed([FO_FETCH] + PutLong(dict.next.value), p.dict, true)
  {
  }
}
