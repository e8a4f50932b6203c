/** The three ways a function gets applied: by evaluating a call, by `siod_lapply` on a
    list of values, and by the short cuts `siod_funcall1` and `siod_funcall2`
    (src/slib.c:1639-1825, src/sliba.c:1465-1488). */
module Application {
  import opened Evaluator

  /** The first `n` elements of an argument list. */
  function Take(n: nat, args: Ptr, st: State): (r: Values)
    ensures r.Values? ==> |r.vs| == n && r.st == st
    ensures r.NoValues? ==> Kept(st.frames, r.o)
  {
    if n == 0 then Values([], args, st)
    else
      var x := Car(args, st);
      if !x.Done? then NoValues(x)
      else if n == 1 then Values([x.v], args, st)
      else
        var next := Cdr(args, st);
        if !next.Done? then NoValues(next)
        else
          var more := Take(n - 1, next.v, st);
          if more.Values? then Values([x.v] + more.vs, more.rest, st) else more
  }

  /** The fold of subr_2n over values that are there already. */
  function ApplyFold(P: Primitives, k: nat, fn: Fn, a: Ptr, b: Ptr, l: Ptr, st: State): (r: Outcome)
    requires Disciplined(P)
    ensures Kept(st.frames, r)
  {
    if k == 0 then Timeout
    else
      var acc := CallFn(P, k - 1, fn, [a, b], st);
      if !acc.Done? then acc
      else
        var next := Cdr(l, acc.st);
        if !next.Done? then next
        else if !IsCons(next.v, acc.st) then acc
        else ApplyFold(P, k - 1, fn, acc.v, acc.st.mem[next.v].car, next.v, acc.st)
  }

  /** `siod_lapply` */
  function Apply(P: Primitives, k: nat, f: Ptr, args: Ptr, st: State): (r: Outcome)
    requires Disciplined(P)
    ensures Kept(st.frames, r)
  {
    if k == 0 then Timeout
    else if !(0 < f < |st.mem|) then Err("cannot be applied", f, st)
    else
      match st.mem[f]
      case Subr(Exactly(n), fn) =>
        var a := Take(n, args, st);
        if a.Values? then CallFn(P, k - 1, fn, a.vs, st) else a.o
      case Subr(TwoOrMore, fn) =>
        var a := Take(2, args, st);
        if a.Values? then ApplyFold(P, k - 1, fn, a.vs[0], a.vs[1], a.rest, st) else a.o
      case Subr(AnyNumber, fn) => CallFn(P, k - 1, fn, [args], st)
      case Closure(cenv, code) =>
        if !(0 < code < |st.mem|) then Err("closure code type not valid", f, st)
        else if st.mem[code].Cons? then Enter(P, k - 1, args, cenv, code, st)
        else if st.mem[code].Subr? && st.mem[code].arity.AnyNumber? then
          CallFn(P, k - 1, st.mem[code].fn, [|st.mem|], NewCons(cenv, args, st).st)
        else if st.mem[code].Subr? && st.mem[code].arity.Exactly? && st.mem[code].arity.n > 0 then
          var a := Take(st.mem[code].arity.n - 1, args, st);
          if a.Values? then CallFn(P, k - 1, st.mem[code].fn, [cenv] + a.vs, st) else a.o
        else Err("closure code type not valid", f, st)
      case _ => Err("cannot be applied", f, st)
  }

  predicate ClosesOver(f: Ptr, n: nat, st: State) {
    && 0 < f < |st.mem| && st.mem[f].Closure?
    && 0 < st.mem[f].code < |st.mem|
    && var c := st.mem[st.mem[f].code]; c.Subr? && c.arity == Exactly(n)
  }

  function FnOf(f: Ptr, n: nat, st: State): Fn
    requires ClosesOver(f, n, st)
  {
    st.mem[st.mem[f].code].fn
  }

  /** `siod_funcall1` */
  function Funcall1(P: Primitives, k: nat, f: Ptr, a: Ptr, st: State): (r: Outcome)
    requires Disciplined(P)
    ensures Kept(st.frames, r)
  {
    if k == 0 then Timeout
    else if 0 < f < |st.mem| && st.mem[f].Subr? && st.mem[f].arity == Exactly(1) then
      CallFn(P, k - 1, st.mem[f].fn, [a], st)
    else if ClosesOver(f, 2, st) then
      CallFn(P, k - 1, FnOf(f, 2, st), [st.mem[f].env, a], st)
    else
      var l := NewCons(a, 0, st);
      Apply(P, k, f, l.v, l.st)
  }

  /** `siod_funcall2` */
  function Funcall2(P: Primitives, k: nat, f: Ptr, a: Ptr, b: Ptr, st: State): (r: Outcome)
    requires Disciplined(P)
    ensures Kept(st.frames, r)
  {
    if k == 0 then Timeout
    else if 0 < f < |st.mem| && st.mem[f].Subr? && st.mem[f].arity == Exactly(2) then
      CallFn(P, k - 1, st.mem[f].fn, [a, b], st)
    else if 0 < f < |st.mem| && st.mem[f].Subr? && st.mem[f].arity == TwoOrMore then
      CallFn(P, k - 1, st.mem[f].fn, [a, b], st)
    else
      var tail := NewCons(b, 0, st);
      var l := NewCons(a, tail.v, tail.st);
      Apply(P, k, f, l.v, l.st)
  }

  // ---- Lists of values and of quoted values -----------------------------------------

  /** `l` is a proper list of the values `vs`. */
  predicate ListOf(l: Ptr, vs: seq<Ptr>, st: State)
    decreases |vs|
  {
    if vs == [] then l == 0
    else IsCons(l, st) && st.mem[l].car == vs[0] && ListOf(st.mem[l].cdr, vs[1..], st)
  }

  predicate Quoted(x: Ptr, v: Ptr, st: State) {
    && IsCons(x, st) && st.mem[x].car == QUOTE
    && IsCons(st.mem[x].cdr, st) && st.mem[st.mem[x].cdr].car == v
  }

  /** `l` is a proper list of the forms (quote v). */
  predicate QuotedList(l: Ptr, vs: seq<Ptr>, st: State)
    decreases |vs|
  {
    if vs == [] then l == 0
    else IsCons(l, st) && Quoted(st.mem[l].car, vs[0], st) && QuotedList(st.mem[l].cdr, vs[1..], st)
  }

  /** `s` has whatever `st` has, unchanged, and perhaps more in memory. */
  predicate Grows(st: State, s: State) {
    st.mem <= s.mem && s.globals == st.globals && s.frames == st.frames
  }

  /** `quote` means what it should in `env`, which takes `n` steps to see. */
  predicate QuoteWorks(n: nat, env: Ptr, st: State) {
    && IsSymbol(QUOTE, st)
    && Lookup(n, QUOTE, env, st) == Done(0, st)
    && QUOTE in st.globals && 0 < st.globals[QUOTE] < |st.mem|
    && st.mem[st.globals[QUOTE]] == FSubr(Quote)
  }

  lemma {:induction false} ListStays(l: Ptr, vs: seq<Ptr>, st: State, s: State)
    requires ListOf(l, vs, st) && st.mem <= s.mem
    ensures ListOf(l, vs, s)
    decreases |vs|
  {
    if vs != [] {
      ListStays(st.mem[l].cdr, vs[1..], st, s);
    }
  }

  lemma {:induction false} QuotedStays(l: Ptr, vs: seq<Ptr>, st: State, s: State)
    requires QuotedList(l, vs, st) && st.mem <= s.mem
    ensures QuotedList(l, vs, s)
    decreases |vs|
  {
    if vs != [] {
      QuotedStays(st.mem[l].cdr, vs[1..], st, s);
    }
  }

  /** No cell points outside memory. */
  predicate NoDangling(st: State) {
    forall p :: 0 <= p < |st.mem| && st.mem[p].Cons? ==>
      st.mem[p].car < |st.mem| && st.mem[p].cdr < |st.mem|
  }

  /** Not being found needs no more steps later, and survives growth of memory. */
  lemma {:induction false} FrameMissStays(k: nat, j: nat, x: Ptr, fl: Ptr, al: Ptr, frame: Ptr, st: State, s: State)
    requires LookupFrame(k, x, fl, al, frame, st) == Done(0, st)
    requires k <= j && st.mem <= s.mem && fl < |st.mem| && NoDangling(st)
    ensures LookupFrame(j, x, fl, al, frame, s) == Done(0, s)
    decreases k
  {
    if IsCons(fl, st) {
      FrameMissStays(k - 1, j - 1, x, st.mem[fl].cdr, st.mem[al].cdr, frame, st, s);
    }
  }

  lemma {:induction false} MissStays(k: nat, j: nat, x: Ptr, env: Ptr, st: State, s: State)
    requires Lookup(k, x, env, st) == Done(0, st)
    requires k <= j && st.mem <= s.mem && NoDangling(st)
    ensures Lookup(j, x, env, s) == Done(0, s)
    decreases k
  {
    hide Lookup, LookupFrame;
    LookupStep(k, x, env, st);
    LookupStep(j, x, env, s);
    if IsCons(env, st) {
      var frame := st.mem[env].car;
      FrameMissStays(k - 1, j - 1, x, st.mem[frame].car, st.mem[frame].cdr, frame, st, s);
      MissStays(k - 1, j - 1, x, st.mem[env].cdr, st, s);
    }
  }

  /** In whatever `st` memory has grown to, a quoted value of the base `st0` evaluates to
      that value. */
  lemma EvalQuoted(P: Primitives, k: nat, n: nat, x: Ptr, v: Ptr, env: Ptr, st0: State, st: State)
    requires Disciplined(P) && Quoted(x, v, st0) && Grows(st0, st)
    requires QuoteWorks(n, env, st0) && NoDangling(st0) && k >= n + 4
    ensures Eval(P, k, x, env, st) == Done(v, st)
  {
    MissStays(n, k - 1, QUOTE, env, st0, st);
    var q := st.globals[QUOTE];
    assert Variable(k - 1, QUOTE, env, st) == Done(q, st);
    assert Call(P, k - 1, q, x, env, st) == EvalForm(P, k - 2, Quote, st.mem[x].cdr, env, st);
  }

  lemma EvalNil(P: Primitives, k: nat, env: Ptr, st: State)
    requires Disciplined(P) && k > 0
    ensures Eval(P, k, 0, env, st) == Done(0, st)
  {
  }

  /** The first `m` of the values, with NIL for missing ones. */
  function Padded(vs: seq<Ptr>, m: nat): seq<Ptr> {
    if m == 0 then [] else if vs == [] then [0] + Padded([], m - 1) else [vs[0]] + Padded(vs[1..], m - 1)
  }

  function Tail(vs: seq<Ptr>): seq<Ptr> {
    if vs == [] then [] else vs[1..]
  }

  lemma {:induction false} TakeGives(m: nat, args: Ptr, vs: seq<Ptr>, st: State)
    requires ListOf(args, vs, st)
    ensures var b := Take(m, args, st);
            && b.Values? && b.vs == Padded(vs, m)
            && (m > 0 ==> if m <= |vs| then ListOf(b.rest, vs[m - 1..], st) else b.rest == 0)
  {
    if m == 1 {
      assert vs[0..] == vs;
    } else if m > 1 {
      var next := if vs == [] then 0 else st.mem[args].cdr;
      TakeGives(m - 1, next, Tail(vs), st);
      if m <= |vs| {
        assert vs[1..][m - 2..] == vs[m - 1..];
      }
    }
  }

  lemma SomeStep(P: Primitives, k: nat, m: nat, l: Ptr, x: Ptr, v: Ptr, next: Ptr, env: Ptr, st: State)
    requires Disciplined(P) && m > 1 && k > 0
    requires Car(l, st) == Done(x, st) && Eval(P, k - 1, x, env, st) == Done(v, st) && Cdr(l, st) == Done(next, st)
    ensures var more := EvalSome(P, k - 1, m - 1, next, env, st);
            EvalSome(P, k, m, l, env, st)
            == if more.Values? then Values([v] + more.vs, more.rest, more.st) else more
  {
    hide Eval, Car, Cdr;
  }

  /** Evaluating quoted arguments one after the other is taking the values. */
  lemma {:induction false} SomeQuoted(P: Primitives, k: nat, n: nat, m: nat, l: Ptr, vs: seq<Ptr>, env: Ptr, st: State)
    requires Disciplined(P) && QuotedList(l, vs, st)
    requires QuoteWorks(n, env, st) && NoDangling(st) && k >= n + m + 4
    ensures var a := EvalSome(P, k, m, l, env, st);
            && a.Values? && a.vs == Padded(vs, m) && a.st == st
            && (m > 0 ==> if m <= |vs| then QuotedList(a.rest, vs[m - 1..], st) else a.rest == 0)
    decreases m
  {
    hide Eval, QuoteWorks, NoDangling, Quoted;
    if m > 0 {
      var x, v := if vs == [] then 0 else st.mem[l].car, if vs == [] then 0 else vs[0];
      if vs == [] {
        EvalNil(P, k - 1, env, st);
      } else {
        EvalQuoted(P, k - 1, n, x, v, env, st, st);
      }
      if m == 1 {
        assert vs[0..] == vs;
        assert Padded(vs, 1) == [v];
      } else {
        hide EvalSome;
        var next := if vs == [] then 0 else st.mem[l].cdr;
        SomeStep(P, k, m, l, x, v, next, env, st);
        SomeQuoted(P, k - 1, n, m - 1, next, Tail(vs), env, st);
        if m <= |vs| {
          assert vs[1..][m - 2..] == vs[m - 1..];
        }
      }
    }
  }

  /** The loop of `siod_leval_args` on quoted values: it hangs a list of them on `last`. */
  lemma {:induction false} MoreQuoted(P: Primitives, k: nat, n: nat, last: Ptr, l: Ptr, all: Ptr, vs: seq<Ptr>, env: Ptr,
                                      st0: State, st: State)
    requires Disciplined(P) && QuotedList(l, vs, st0) && Grows(st0, st)
    requires QuoteWorks(n, env, st0) && NoDangling(st0) && k >= n + |vs| + 5
    requires IsCons(last, st) && st.mem[last].cdr == 0 && last >= |st0.mem|
    ensures var r := MoreArgs(P, k, last, l, all, env, st);
            && r.Done? && Grows(st0, r.st) && |st.mem| <= |r.st.mem|
            && (forall p :: 0 <= p < |st.mem| && p != last ==> r.st.mem[p] == st.mem[p])
            && IsCons(last, r.st) && r.st.mem[last].car == st.mem[last].car
            && ListOf(r.st.mem[last].cdr, vs, r.st)
    decreases |vs|
  {
    hide Eval, QuoteWorks, NoDangling, Quoted;
    if vs != [] {
      EvalQuoted(P, k - 1, n, st.mem[l].car, vs[0], env, st0, st);
      var cell := |st.mem|;
      var s := SetCdr(last, cell, Alloc(Cons(vs[0], 0), st));
      MoreQuoted(P, k - 1, n, cell, st0.mem[l].cdr, all, vs[1..], env, st0, s);
      assert s.mem[l] == st0.mem[l];
    }
  }

  /** `siod_leval_args` on quoted values conses up a fresh list of them. */
  lemma ArgsQuoted(P: Primitives, k: nat, n: nat, l: Ptr, vs: seq<Ptr>, env: Ptr, st: State)
    requires Disciplined(P) && QuotedList(l, vs, st)
    requires QuoteWorks(n, env, st) && NoDangling(st) && k >= n + |vs| + 6
    ensures var r := EvalArgs(P, k, l, env, st);
            r.Done? && Grows(st, r.st) && ListOf(r.v, vs, r.st)
  {
    hide Eval, QuoteWorks, NoDangling, Quoted;
    if vs != [] {
      EvalQuoted(P, k - 1, n, st.mem[l].car, vs[0], env, st, st);
      var s := Alloc(Cons(vs[0], 0), st);
      MoreQuoted(P, k - 1, n, |st.mem|, st.mem[l].cdr, l, vs[1..], env, st, s);
    }
  }

  /** The C function does no more to memory than add to it, as arithmetic does. */
  ghost predicate OnlyAllocates(P: Primitives, fn: Fn) {
    fn.Other? && forall args: seq<Ptr>, s: State :: P(fn.id, args, s).Done? ==> Grows(s, P(fn.id, args, s).st)
  }

  lemma {:induction false} FoldQuoted(P: Primitives, k: nat, n: nat, fn: Fn, a: Ptr, b: Ptr, l: Ptr, args: Ptr, vs: seq<Ptr>, env: Ptr,
                                      st0: State, st: State)
    requires Disciplined(P) && OnlyAllocates(P, fn) && vs != []
    requires QuotedList(l, vs, st0) && ListOf(args, vs, st0) && Grows(st0, st)
    requires QuoteWorks(n, env, st0) && NoDangling(st0) && k >= n + |vs| + 5
    ensures EvalFold(P, k, fn, a, b, l, env, st) == ApplyFold(P, k, fn, a, b, args, st)
    decreases |vs|
  {
    hide Eval, QuoteWorks, NoDangling, Quoted;
    var acc := CallFn(P, k - 1, fn, [a, b], st);
    if acc.Done? {
      assert acc == P(fn.id, [a, b], st);
      assert acc.st.mem[l] == st0.mem[l] && acc.st.mem[args] == st0.mem[args];
      if |vs| > 1 {
        var x := st0.mem[l].cdr;
        EvalQuoted(P, k - 1, n, st0.mem[x].car, vs[1], env, st0, acc.st);
        FoldQuoted(P, k - 1, n, fn, acc.v, vs[1], x, st0.mem[args].cdr, vs[1..], env, st0, acc.st);
      }
    }
  }

  // ---- The paths agree --------------------------------------------------------------

  /** What `siod_lapply` accepts. */
  predicate Applicable(f: Ptr, st: State) {
    && 0 < f < |st.mem| && (st.mem[f].Subr? || st.mem[f].Closure?)
    && forall p :: 0 < p < |st.mem| && st.mem[p].Subr? && st.mem[p].arity.Exactly? ==> st.mem[p].arity.n <= 5
  }

  ghost predicate FoldsPurely(P: Primitives, f: Ptr, st: State) {
    0 < f < |st.mem| && st.mem[f].Subr? && st.mem[f].arity.TwoOrMore? ==> OnlyAllocates(P, st.mem[f].fn)
  }

  lemma FoldAgrees(P: Primitives, k: nat, n: nat, fn: Fn, l: Ptr, args: Ptr, vs: seq<Ptr>, env: Ptr, st: State)
    requires Disciplined(P) && OnlyAllocates(P, fn)
    requires QuotedList(l, vs, st) && ListOf(args, vs, st)
    requires QuoteWorks(n, env, st) && NoDangling(st) && k >= n + |vs| + 10
    ensures var a, b := EvalSome(P, k, 2, l, env, st), Take(2, args, st);
            && a.Values? && b.Values? && a.st == st
            && EvalFold(P, k, fn, a.vs[0], a.vs[1], a.rest, env, st) == ApplyFold(P, k, fn, b.vs[0], b.vs[1], b.rest, st)
  {
    hide EvalSome, Take, QuoteWorks, NoDangling, QuotedList, ListOf, OnlyAllocates;
    SomeQuoted(P, k, n, 2, l, vs, env, st);
    TakeGives(2, args, vs, st);
    var a, b := EvalSome(P, k, 2, l, env, st), Take(2, args, st);
    if |vs| >= 2 {
      hide EvalFold, ApplyFold;
      GrowsSelf(st);
      FoldQuoted(P, k, n, fn, a.vs[0], a.vs[1], a.rest, b.rest, vs[1..], env, st, st);
    }
  }

  lemma GrowsSelf(st: State)
    ensures Grows(st, st)
  {
  }

  /** The function is handed the argument list itself: an lsubr, or a closure over one or over
      a lambda. */
  predicate GetsList(f: Ptr, st: State) {
    && 0 < f < |st.mem|
    && match st.mem[f]
       case Subr(arity, _) => arity.AnyNumber?
       case Closure(_, code) =>
         0 < code < |st.mem| && (st.mem[code].Cons? || (st.mem[code].Subr? && st.mem[code].arity.AnyNumber?))
       case _ => false
  }

  /** Evaluating a call on quoted values and applying the function to a list of the values
      come to the same, whatever the function: applying it to any list of them there is, or,
      for a function that gets the list itself, to the one that the evaluator makes. */
  lemma ApplyAgrees(P: Primitives, k: nat, n: nat, f: Ptr, x: Ptr, args: Ptr, vs: seq<Ptr>, env: Ptr, st: State)
    returns (l: Ptr, s: State)
    requires Disciplined(P) && Applicable(f, st) && FoldsPurely(P, f, st)
    requires IsCons(x, st) && QuotedList(st.mem[x].cdr, vs, st) && ListOf(args, vs, st)
    requires QuoteWorks(n, env, st) && NoDangling(st) && k >= n + |vs| + 12
    ensures Grows(st, s) && ListOf(l, vs, s)
    ensures !GetsList(f, st) ==> l == args && s == st
    ensures Call(P, k, f, x, env, st) == Apply(P, k, f, l, s)
  {
    hide EvalSome, EvalArgs, Take, QuoteWorks, NoDangling, QuotedList, ListOf, EvalFold, ApplyFold, Enter, CallFn, OnlyAllocates;
    var q := st.mem[x].cdr;
    var c := st.mem[f];
    if c.Subr? && c.arity.Exactly? {
      l, s := args, st;
      SomeQuoted(P, k - 1, n, c.arity.n, q, vs, env, st);
      TakeGives(c.arity.n, args, vs, st);
    } else if c.Subr? && c.arity.TwoOrMore? {
      l, s := args, st;
      FoldAgrees(P, k - 1, n, c.fn, q, args, vs, env, st);
    } else if c.Subr? || !(0 < c.code < |st.mem|) || st.mem[c.code].Cons? || (st.mem[c.code].Subr? && st.mem[c.code].arity.AnyNumber?) {
      ArgsQuoted(P, k - 1, n, q, vs, env, st);
      var a := EvalArgs(P, k - 1, q, env, st);
      if c.Closure? && !(0 < c.code < |st.mem|) {
        l, s := args, st;
      } else {
        l, s := a.v, a.st;
      }
    } else {
      l, s := args, st;
      if st.mem[c.code].Subr? && st.mem[c.code].arity.Exactly? && st.mem[c.code].arity.n > 0 {
        SomeQuoted(P, k - 1, n, st.mem[c.code].arity.n - 1, q, vs, env, st);
        TakeGives(st.mem[c.code].arity.n - 1, args, vs, st);
      }
    }
  }

  lemma TakeOne(a: Ptr, args: Ptr, st: State)
    requires ListOf(args, [a], st)
    ensures Take(1, args, st) == Values([a], args, st) && IsCons(args, st) && st.mem[args].cdr == 0
  {
    assert [a][1..] == [];
  }

  lemma TakeTwo(a: Ptr, b: Ptr, args: Ptr, st: State)
    requires ListOf(args, [a, b], st)
    ensures var t := Take(2, args, st);
            && t.Values? && t.vs == [a, b]
            && IsCons(t.rest, st) && st.mem[t.rest].cdr == 0
  {
    assert [a, b][1..] == [b];
    TakeOne(b, st.mem[args].cdr, st);
    assert [a] + [b] == [a, b];
  }

  lemma OneIsList(a: Ptr, l: Ptr, st: State)
    requires IsCons(l, st) && st.mem[l] == Cons(a, 0)
    ensures ListOf(l, [a], st)
  {
    assert [a][1..] == [];
  }

  /** `siod_funcall1` calls it without making a list. */
  predicate TakesOne(f: Ptr, st: State) {
    0 < f < |st.mem| && ((st.mem[f].Subr? && st.mem[f].arity == Exactly(1)) || ClosesOver(f, 2, st))
  }

  /** And so does `siod_funcall2`. */
  predicate TakesTwo(f: Ptr, st: State) {
    0 < f < |st.mem| && st.mem[f].Subr? && (st.mem[f].arity == Exactly(2) || st.mem[f].arity.TwoOrMore?)
  }

  /** `siod_funcall1` is `siod_lapply` on a list of its one argument. */
  lemma Funcall1Agrees(P: Primitives, k: nat, f: Ptr, a: Ptr, args: Ptr, st: State)
    returns (l: Ptr, s: State)
    requires Disciplined(P) && ListOf(args, [a], st)
    ensures Grows(st, s) && ListOf(l, [a], s)
    ensures if TakesOne(f, st) then l == args && s == st else l == |st.mem| && s == Alloc(Cons(a, 0), st)
    ensures Funcall1(P, k, f, a, st) == Apply(P, k, f, l, s)
  {
    hide CallFn, Enter, Take, ListOf;
    TakeOne(a, args, st);
    if TakesOne(f, st) {
      l, s := args, st;
      if st.mem[f].Closure? {
        assert [st.mem[f].env] + [a] == [st.mem[f].env, a];
      }
    } else {
      l, s := |st.mem|, Alloc(Cons(a, 0), st);
      OneIsList(a, l, s);
    }
  }

  /** `siod_funcall2` is `siod_lapply` on a list of its two arguments. */
  lemma Funcall2Agrees(P: Primitives, k: nat, f: Ptr, a: Ptr, b: Ptr, args: Ptr, st: State)
    returns (l: Ptr, s: State)
    requires Disciplined(P) && ListOf(args, [a, b], st) && FoldsPurely(P, f, st) && k >= 2
    ensures Grows(st, s) && ListOf(l, [a, b], s)
    ensures if TakesTwo(f, st) then l == args && s == st
            else l == |st.mem| + 1 && s == Alloc(Cons(a, |st.mem|), Alloc(Cons(b, 0), st))
    ensures Funcall2(P, k, f, a, b, st) == Apply(P, k, f, l, s)
  {
    hide Enter, Take, ListOf;
    var c := if 0 < f < |st.mem| then st.mem[f] else Symbol;
    TakeTwo(a, b, args, st);
    if c.Subr? && (c.arity == Exactly(2) || c.arity.TwoOrMore?) {
      l, s := args, st;
      if c.arity.TwoOrMore? {
        assert CallFn(P, k - 2, c.fn, [a, b], st) == CallFn(P, k - 1, c.fn, [a, b], st) == P(c.fn.id, [a, b], st);
      }
    } else {
      l, s := |st.mem| + 1, Alloc(Cons(a, |st.mem|), Alloc(Cons(b, 0), st));
      OneIsList(b, |st.mem|, s);
      TwoIsList(a, b, l, s);
    }
  }

  lemma TwoIsList(a: Ptr, b: Ptr, l: Ptr, st: State)
    requires IsCons(l, st) && st.mem[l].car == a && ListOf(st.mem[l].cdr, [b], st)
    ensures ListOf(l, [a, b], st)
  {
    assert [a, b][1..] == [b];
  }

  /** Special forms, names and what is no function cannot be applied. */
  lemma NotApplicable(P: Primitives, k: nat, f: Ptr, args: Ptr, st: State)
    requires Disciplined(P) && k > 0
    requires f == 0 || f >= |st.mem| || !(st.mem[f].Subr? || st.mem[f].Closure?)
    ensures Apply(P, k, f, args, st) == Err("cannot be applied", f, st)
  {
    hide Err;
  }
}
