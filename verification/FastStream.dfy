/** The two ends of a binary stream as the source runs them: a table object holding an
    open file, the symbol table and the next index, updated in place by loops. */
module FastStream {
  import opened Bytes
  import opened Data
  import opened FastIO

  lemma ConsIsBigger(d: Form)
    requires d.Cons?
    ensures Size(d.car) < Size(d) && Size(d.cdr) < Size(d) && Size(SpineEnd(d)) < Size(d)
  {
    assert |Spine(d)| > 0;
  }

  class FastPrinter {
    var file: seq<byte>
    var table: Option<map<seq<byte>, nat>>
    var next: Option<nat>

    constructor (nohash: bool)
      ensures file == [] && Dict() == NewDictionary(nohash)
    {
      file, next := [], Some(0);
      table := if nohash then None else Some(map[]);
    }

    function Dict(): Dictionary
      reads this
    {
      Dictionary(table, next)
    }

    /** This call printed what `p` says, starting from `file0`. */
    predicate Printed(file0: seq<byte>, p: Printed, ok: bool)
      reads this
    {
      file == file0 + p.out && Dict() == p.dict && ok == p.ok
    }

    /** `siod_fast_print_table`: whether the symbol has still to be spelled out. */
    method PrintTable(name: seq<byte>) returns (spell: bool)
      modifies this
      ensures spell == FastIO.PrintTable(name, old(Dict())).1
      ensures Printed(old(file), FastIO.PrintTable(name, old(Dict())).0, true)
    {
      assert file + [] == file;
      if table.None? {
        return true;
      }
      if name in table.value {
        file := file + ([FO_FETCH] + PutLong(table.value[name]));
        return false;
      }
      if next.None? {
        return true;
      }
      var index := next.value;
      table := Some(table.value[name := index]);
      next := Some(index + 1);
      file := file + ([FO_STORE] + PutLong(index));
      return true;
    }

    method PrintName(name: seq<byte>) returns (ok: bool)
      modifies this
      ensures Printed(old(file), PrintSymbol(name, old(Dict())), ok)
    {
      hide PutLong, FastIO.PrintTable;
      var spell := PrintTable(name);
      if spell {
        file := file + [TC_SYMBOL];
        if |name| >= TKBUFFERN {
          return false;
        }
        file := file + PutLong(|name|) + name;
      }
      return true;
    }

    method PrintArray(code: byte, bytes: seq<byte>) returns (ok: bool)
      modifies this
      ensures Printed(old(file), PrintBytes(code, bytes, old(Dict())), ok)
    {
      hide PutLong;
      var len := ToInt(|bytes|);
      file := file + ([code] + PutLong(len));
      if len < 0 {
        return false;
      }
      file := file + bytes[..len];
      return true;
    }

    /** `siod_fast_print`. */
    method FastPrint(d: Form) returns (ok: bool)
      modifies this
      ensures Printed(old(file), Print(d, old(Dict())), ok)
      decreases Size(d), 3
    {
      hide PutLong, PrintMany, PrintBytes, PrintSymbol;
      match d
      case Nil =>
        file := file + [TC_NIL];
        return true;
      case Cons(a, b) =>
        var len, tmp := 0, d;
        while tmp.Cons?
          invariant len + SpineLength(tmp) == SpineLength(d) && SpineEnd(tmp) == SpineEnd(d)
          decreases tmp
        {
          tmp, len := tmp.cdr, len + 1;
        }
        if len == 1 {
          ok := PrintPairOf(d);
        } else {
          ok := PrintList(d, len, tmp);
        }
      case Flonum(x) =>
        file := file + ([TC_FLONUM] + x);
        return true;
      case Symbol(name) =>
        ok := PrintName(name);
      case String(bytes) =>
        ok := PrintArray(TC_STRING, bytes);
      case ByteArray(bytes) =>
        ok := PrintArray(TC_BYTE_ARRAY, bytes);
      case LispArray(elems) =>
        file := file + [TC_LISP_ARRAY];
        var len := ToInt(|elems|);
        file := file + PutLong(len);
        if len >= 0 {
          SizeOfPrefix(elems, len);
          ok := PrintElements(elems[..len]);
        } else {
          ok := true;
        }
    }

    method PrintPairOf(d: Form) returns (ok: bool)
      requires SpineLength(d) == 1
      modifies this
      ensures Printed(old(file), Print(d, old(Dict())), ok)
      decreases Size(d), 2
    {
      hide PutLong, PrintMany, Print, Spine, SpineEnd;
      ConsPrints(d, Dict());
      ConsIsBigger(d);
      file := file + [TC_CONS];
      ok := FastPrint(d.car);
      if ok {
        ok := FastPrint(d.cdr);
      }
    }

    /** The cons case for other lengths than one; `end` is what the list ends in. */
    method PrintList(d: Form, len: nat, end: Form) returns (ok: bool)
      requires d.Cons? && len == SpineLength(d) != 1 && end == SpineEnd(d)
      modifies this
      ensures Printed(old(file), Print(d, old(Dict())), ok)
      decreases Size(d), 2
    {
      hide PutLong, PrintMany, Print, Spine, SpineEnd;
      ConsPrints(d, Dict());
      ConsIsBigger(d);
      file := file + ([if end.Nil? then FO_LIST else FO_LISTD] + PutLong(len));
      ok := PrintSpine(d);
      if ok && !end.Nil? {
        ok := FastPrint(end);
      }
    }

    /** The loop over the CARs of a list. */
    method PrintSpine(d: Form) returns (ok: bool)
      requires d.Cons?
      modifies this
      ensures Printed(old(file), PrintMany(Spine(d), old(Dict())), ok)
      decreases Size(d), 1
    {
      hide Print;
      var tmp := d;
      ghost var all := PrintMany(Spine(d), Dict());
      while tmp.Cons?
        invariant SizeAll(Spine(tmp)) <= SizeAll(Spine(d)) < Size(d)
        invariant var q := PrintMany(Spine(tmp), Dict());
                  old(file) + all.out == file + q.out && all.dict == q.dict && all.ok == q.ok
        decreases tmp
      {
        assert Spine(tmp)[1..] == Spine(tmp.cdr);
        ghost var file0, p := file, Print(tmp.car, Dict());
        ok := FastPrint(tmp.car);
        if !ok {
          return false;
        }
        tmp := tmp.cdr;
        ghost var q := PrintMany(Spine(tmp), Dict());
        assert file0 + (p.out + q.out) == file0 + p.out + q.out;
      }
      return true;
    }

    /** The loop over the elements of a lisp array. */
    method PrintElements(elems: seq<Form>) returns (ok: bool)
      modifies this
      ensures Printed(old(file), PrintMany(elems, old(Dict())), ok)
      decreases SizeAll(elems), 4
    {
      hide Print;
      ghost var all := PrintMany(elems, Dict());
      assert elems[0..] == elems;
      for j := 0 to |elems|
        invariant SizeAll(elems[j..]) <= SizeAll(elems)
        invariant var q := PrintMany(elems[j..], Dict());
                  old(file) + all.out == file + q.out && all.dict == q.dict && all.ok == q.ok
      {
        assert elems[j..][1..] == elems[j + 1..];
        ghost var file0, p := file, Print(elems[j], Dict());
        ok := FastPrint(elems[j]);
        if !ok {
          return false;
        }
        ghost var q := PrintMany(elems[j + 1..], Dict());
        assert file0 + (p.out + q.out) == file0 + p.out + q.out;
      }
      return true;
    }
  }

  /** How one call of the reader ends; `Eof` is the source's answering its own table. */
  datatype Outcome = Value(value: Form) | Eof | Error(why: Fault)

  class FastReader {
    var input: seq<byte>
    var table: map<int, Form>

    constructor (file: seq<byte>)
      ensures input == file && table == map[]
    {
      input, table := file, map[];
    }

    /** This call ended as `r` says. */
    predicate Ended(r: Reading, out: Outcome)
      reads this
    {
      match r
      case Got(v, rest, t) => out == Value(v) && input == rest && table == t
      case AtEnd(t) => out == Eof && input == [] && table == t
      case Broken(why) => out == Error(why)
    }

    /** `siod_get_long` on what is left of the file. */
    method GetLongFrom() returns (n: Option<int>)
      modifies this`input
      ensures n == if |old(input)| < 8 then None else Some(GetLong(old(input)[..8]))
      ensures n.Some? ==> input == old(input)[8..]
    {
      if |input| < 8 {
        return None;
      }
      n := Some(GetLong(input[..8]));
      input := input[8..];
    }

    method FetchFrom() returns (out: Outcome)
      modifies this
      ensures Ended(Fetch(old(input), old(table)), out)
    {
      var i := GetLongFrom();
      if i.None? {
        return Error(Truncated);
      }
      return Value(if i.value in table then table[i.value] else Nil);
    }

    method ReadBlockFrom(limit: Option<nat>) returns (b: Block)
      modifies this`input
      ensures b == ReadBlock(old(input), limit)
      ensures b.Block? ==> input == b.rest
    {
      ghost var s := input;
      var n := GetLongFrom();
      if n.None? {
        return NoBlock(Truncated);
      }
      if limit.Some? && n.value >= limit.value {
        return NoBlock(NameTooLong);
      }
      if n.value < 0 {
        return NoBlock(BadLength);
      }
      if |input| < n.value {
        return NoBlock(Truncated);
      }
      b := Block(input[..n.value], input[n.value..]);
      input := input[n.value..];
      assert b.bytes == s[8..8 + n.value] && b.rest == s[8 + n.value..];
    }

    /** The loop over the rest of a comment line. */
    method SkipLine() returns (c: Comment)
      modifies this`input
      ensures c == SkipComment(old(input))
      ensures input == if c.EndOfFile? then [] else c.rest
    {
      while input != []
        invariant SkipComment(input) == SkipComment(old(input))
        decreases |input|
      {
        var ch := input[0];
        input := input[1..];
        if ch == 10 {
          return EndOfLine(input);
        }
        if ch == 0 {
          return FallsThrough(input);
        }
      }
      return EndOfFile;
    }

    /** The loops that fill a list or an array with `n` forms. */
    method ReadForms(n: nat) returns (vs: seq<Form>, fault: Option<Fault>)
      modifies this
      ensures match ReadMany(n, old(input), old(table))
              case GotMany(v, rest, t) => fault.None? && vs == v && input == rest && table == t
              case BrokenMany(why) => fault == Some(why)
      decreases |input|, 1
    {
      hide Read;
      vs := [];
      ghost var all := ReadMany(n, input, table);
      var k := n;
      while k > 0
        invariant |input| <= |old(input)|
        invariant match ReadMany(k, input, table)
                  case GotMany(v, rest, t) => all == GotMany(vs + v, rest, t)
                  case BrokenMany(why) => all == BrokenMany(why)
      {
        ghost var r := Read(input, table);
        var out := FastRead();
        match out {
          case Value(v) =>
            ghost var more := ReadMany(k - 1, input, table);
            if more.GotMany? {
              assert vs + ([v] + more.values) == vs + [v] + more.values;
            }
            vs := vs + [v];
          case Eof =>
            return vs, Some(Truncated);
          case Error(why) =>
            return vs, Some(why);
        }
        k := k - 1;
      }
      return vs, None;
    }

    /** `siod_fast_read`. */
    method FastRead() returns (out: Outcome)
      modifies this
      ensures Ended(Read(old(input), old(table)), out)
      decreases |input|, 0
    {
      if input == [] {
        return Eof;
      }
      var c := input[0];
      input := input[1..];
      out := Dispatch(c);
    }

    method Dispatch(c: byte) returns (out: Outcome)
      modifies this
      ensures Ended(ReadAs(c, old(input), old(table)), out)
      decreases |input|, 2
    {
      hide Read, ReadMany, SkipComment, Fetch, GetLong, ReadBlock, FromSpine, UpToNul;
      if c == FO_COMMENT {
        var k := SkipLine();
        match k {
          case EndOfFile => return Eof;
          case EndOfLine(rest) => out := FastRead();
          case FallsThrough(rest) => out := FetchFrom();
        }
      } else if c == FO_FETCH {
        out := FetchFrom();
      } else if c == FO_STORE {
        out := ReadStore();
      } else if c == TC_NIL {
        return Value(Nil);
      } else if c == TC_CONS {
        var vs, fault := ReadForms(2);
        out := if fault.Some? then Error(fault.value) else Value(Cons(vs[0], vs[1]));
      } else if c == FO_LIST || c == FO_LISTD {
        out := ReadList(c);
      } else if c == TC_FLONUM {
        if |input| < 8 {
          return Error(Truncated);
        }
        out := Value(Flonum(input[..8]));
        input := input[8..];
      } else if c == TC_SYMBOL {
        var b := ReadBlockFrom(Some(TKBUFFERN));
        out := if b.NoBlock? then Error(b.why) else Value(Symbol(UpToNul(b.bytes)));
      } else if c == TC_STRING || c == TC_BYTE_ARRAY {
        var b := ReadBlockFrom(None);
        out := if b.NoBlock? then Error(b.why)
               else Value(if c == TC_STRING then String(b.bytes) else ByteArray(b.bytes));
      } else if c == TC_LISP_ARRAY {
        out := ReadArray();
      } else {
        out := Error(UnknownOpcode(c));
      }
    }

    method ReadStore() returns (out: Outcome)
      modifies this
      ensures Ended(ReadAs(FO_STORE, old(input), old(table)), out)
      decreases |input|, 1
    {
      hide Read, ReadMany, SkipComment, Fetch, GetLong, ReadBlock, FromSpine, UpToNul;
      var i := GetLongFrom();
      if i.None? {
        return Error(Truncated);
      }
      out := FastRead();
      match out {
        case Value(v) => table := table[i.value := v];
        case Eof => out := Error(Truncated);
        case Error(_) =>
      }
    }

    method ReadList(c: byte) returns (out: Outcome)
      requires c == FO_LIST || c == FO_LISTD
      modifies this
      ensures Ended(ReadAs(c, old(input), old(table)), out)
      decreases |input|, 1
    {
      hide Read, ReadMany, SkipComment, Fetch, GetLong, ReadBlock, FromSpine, UpToNul;
      var n := GetLongFrom();
      if n.None? {
        return Error(Truncated);
      }
      if n.value < 1 {
        return Error(BadLength);
      }
      var vs, fault := ReadForms(if c == FO_LIST then n.value else n.value + 1);
      if fault.Some? {
        return Error(fault.value);
      }
      out := Value(if c == FO_LIST then FromSpine(vs, Nil) else FromSpine(vs[..n.value], vs[n.value]));
    }

    method ReadArray() returns (out: Outcome)
      modifies this
      ensures Ended(ReadAs(TC_LISP_ARRAY, old(input), old(table)), out)
      decreases |input|, 1
    {
      hide Read, ReadMany, SkipComment, Fetch, GetLong, ReadBlock, FromSpine, UpToNul;
      var n := GetLongFrom();
      if n.None? {
        return Error(Truncated);
      }
      if n.value < 0 {
        return Error(BadLength);
      }
      var vs, fault := ReadForms(n.value);
      out := if fault.Some? then Error(fault.value) else Value(LispArray(vs));
    }
  }
  /** `siod_fast_save`: what ends up in the file, whether or not an error cut it short. */
  method FastSave(forms: seq<Form>, nohash: bool, comment: seq<byte>) returns (file: seq<byte>, ok: bool)
    ensures file == Save(forms, nohash, comment).out && ok == Save(forms, nohash, comment).ok
  {
    hide PrintMany, Header;
    var p := new FastPrinter(nohash);
    p.file := comment;
    p.file := p.file + Header();
    ok := p.PrintElements(forms);
    file := p.file;
  }

  /** `siod_fast_load` without evaluation: read until the reader answers its own table. */
  method FastLoad(file: seq<byte>) returns (l: Loaded)
    ensures l == Load(file)
  {
    hide Read;
    var reader := new FastReader(file);
    var vs: seq<Form> := [];
    var more := true;
    ghost var all := Load(file);
    while more
      invariant more ==>
        match ReadAll(reader.input, reader.table)
        case Loaded(v, t) => all == Loaded(vs + v, t)
        case LoadFailed(why) => all == LoadFailed(why)
      invariant !more ==> all == Loaded(vs, reader.table)
      decreases if more then 1 + |reader.input| else 0
    {
      ghost var r := ReadAll(reader.input, reader.table);
      var out := reader.FastRead();
      match out {
        case Value(v) =>
          ghost var rest := ReadAll(reader.input, reader.table);
          if rest.Loaded? {
            assert vs + ([v] + rest.forms) == vs + [v] + rest.forms;
          }
          vs := vs + [v];
        case Eof =>
          assert vs + [] == vs;
          more := false;
        case Error(why) =>
          return LoadFailed(why);
      }
    }
    return Loaded(vs, reader.table);
  }
}
