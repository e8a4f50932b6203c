/** What each form of the language means, one rule for each (src/slib.c:1559-1999).  The
    rules say what a form comes to in terms of what its parts come to, and leave out the
    step budget: `Comes` holds of the outcome that steps enough lead to. */
module FormRules {
  import opened Evaluator
  import opened Steps

  /** Evaluating `x` comes to `r`. */
  ghost predicate Comes(P: Primitives, x: Ptr, env: Ptr, st: State, r: Outcome)
    requires Disciplined(P)
  {
    !r.Timeout? && exists k: nat :: Eval(P, k, x, env, st) == r
  }

  /** Calling `f` on the arguments of the form `x` does. */
  ghost predicate CallComes(P: Primitives, f: Ptr, x: Ptr, env: Ptr, st: State, r: Outcome)
    requires Disciplined(P)
  {
    !r.Timeout? && exists k: nat :: Call(P, k, f, x, env, st) == r
  }

  ghost predicate FormComes(P: Primitives, form: FormCode, args: Ptr, env: Ptr, st: State, r: Outcome)
    requires Disciplined(P)
  {
    !r.Timeout? && exists k: nat :: EvalForm(P, k, form, args, env, st) == r
  }

  /** An msubr leaves a form to go on with, or an outcome. */
  ghost predicate Leaves(P: Primitives, t: Tail, r: Outcome)
    requires Disciplined(P)
  {
    if t.Again? then Comes(P, t.x, t.env, t.st, r) else t.o == r && !r.Timeout?
  }

  ghost predicate TailComes(P: Primitives, tail: TailCode, l: Ptr, env: Ptr, st: State, r: Outcome)
    requires Disciplined(P)
  {
    exists k: nat :: Leaves(P, EvalTail(P, k, tail, l, env, st), r)
  }

  /** The forms of a list in turn. */
  ghost predicate EachComes(P: Primitives, l: Ptr, v: Ptr, env: Ptr, st: State, r: Outcome)
    requires Disciplined(P)
  {
    !r.Timeout? && exists k: nat :: EvalEach(P, k, l, v, env, st) == r
  }

  /** The first `n` arguments. */
  ghost predicate SomeComes(P: Primitives, n: nat, l: Ptr, env: Ptr, st: State, a: Values)
    requires Disciplined(P)
  {
    a != NoValues(Timeout) && exists k: nat :: EvalSome(P, k, n, l, env, st) == a
  }

  /** All of them, as a list. */
  ghost predicate ArgsComes(P: Primitives, l: Ptr, env: Ptr, st: State, r: Outcome)
    requires Disciplined(P)
  {
    !r.Timeout? && exists k: nat :: EvalArgs(P, k, l, env, st) == r
  }

  ghost predicate FoldComes(P: Primitives, fn: Fn, a: Ptr, b: Ptr, l: Ptr, env: Ptr, st: State, r: Outcome)
    requires Disciplined(P)
  {
    !r.Timeout? && exists k: nat :: EvalFold(P, k, fn, a, b, l, env, st) == r
  }

  /** What a C function comes to. */
  ghost predicate FnComes(P: Primitives, fn: Fn, args: seq<Ptr>, st: State, r: Outcome)
    requires Disciplined(P)
  {
    !r.Timeout? && exists k: nat :: CallFn(P, k, fn, args, st) == r
  }

  /** Assigning or defining `x`. */
  ghost predicate Assigns(x: Ptr, v: Ptr, env: Ptr, st: State, r: Outcome) {
    !r.Timeout? && exists k: nat :: SetVar(k, x, v, env, st) == r
  }

  ghost predicate Defines(x: Ptr, v: Ptr, env: Ptr, st: State, r: Outcome) {
    !r.Timeout? && exists k: nat :: DefineVar(k, x, v, env, st) == r
  }

  /** Going on with the form that taking a list apart has given, if it has. */
  ghost predicate Then(P: Primitives, b: Outcome, env: Ptr, r: Outcome)
    requires Disciplined(P)
  {
    if b.Done? then Comes(P, b.v, env, b.st, r) else r == b && !r.Timeout?
  }

  // ---- More steps change nothing -------------------------------------------------------

  lemma {:induction false} EvalMost(P: Primitives, j: nat, k: nat, x: Ptr, env: Ptr, st: State)
    requires Disciplined(P) && j <= k
    ensures Settled(Eval(P, j, x, env, st), Eval(P, k, x, env, st))
    decreases k - j
  {
    hide Eval;
    if j < k {
      EvalMore(P, j, x, env, st);
      EvalMost(P, j + 1, k, x, env, st);
    }
  }

  lemma {:induction false} CallMost(P: Primitives, j: nat, k: nat, f: Ptr, x: Ptr, env: Ptr, st: State)
    requires Disciplined(P) && j <= k
    ensures Settled(Call(P, j, f, x, env, st), Call(P, k, f, x, env, st))
    decreases k - j
  {
    hide Call;
    if j < k {
      CallMore(P, j, f, x, env, st);
      CallMost(P, j + 1, k, f, x, env, st);
    }
  }

  lemma {:induction false} FormMost(P: Primitives, j: nat, k: nat, form: FormCode, args: Ptr, env: Ptr, st: State)
    requires Disciplined(P) && j <= k
    ensures Settled(EvalForm(P, j, form, args, env, st), EvalForm(P, k, form, args, env, st))
    decreases k - j
  {
    hide EvalForm;
    if j < k {
      FormMore(P, j, form, args, env, st);
      FormMost(P, j + 1, k, form, args, env, st);
    }
  }

  lemma {:induction false} TailMost(P: Primitives, j: nat, k: nat, tail: TailCode, l: Ptr, env: Ptr, st: State)
    requires Disciplined(P) && j <= k
    ensures SettledTail(EvalTail(P, j, tail, l, env, st), EvalTail(P, k, tail, l, env, st))
    decreases k - j
  {
    hide EvalTail;
    if j < k {
      TailMore(P, j, tail, l, env, st);
      TailMost(P, j + 1, k, tail, l, env, st);
    }
  }

  lemma {:induction false} SequenceMost(P: Primitives, j: nat, k: nat, tail: TailCode, l: Ptr, env: Ptr, st: State)
    requires Disciplined(P) && j <= k
    ensures SettledTail(EvalSequence(P, j, tail, l, env, st), EvalSequence(P, k, tail, l, env, st))
    decreases k - j
  {
    hide EvalSequence;
    if j < k {
      SequenceMore(P, j, tail, l, env, st);
      SequenceMost(P, j + 1, k, tail, l, env, st);
    }
  }

  lemma {:induction false} EachMost(P: Primitives, j: nat, k: nat, l: Ptr, v: Ptr, env: Ptr, st: State)
    requires Disciplined(P) && j <= k
    ensures Settled(EvalEach(P, j, l, v, env, st), EvalEach(P, k, l, v, env, st))
    decreases k - j
  {
    hide EvalEach;
    if j < k {
      EachMore(P, j, l, v, env, st);
      EachMost(P, j + 1, k, l, v, env, st);
    }
  }

  lemma {:induction false} SomeMost(P: Primitives, j: nat, k: nat, n: nat, l: Ptr, env: Ptr, st: State)
    requires Disciplined(P) && j <= k
    ensures SettledValues(EvalSome(P, j, n, l, env, st), EvalSome(P, k, n, l, env, st))
    decreases k - j
  {
    hide EvalSome;
    if j < k {
      SomeMore(P, j, n, l, env, st);
      SomeMost(P, j + 1, k, n, l, env, st);
    }
  }

  lemma {:induction false} ArgsMost(P: Primitives, j: nat, k: nat, l: Ptr, env: Ptr, st: State)
    requires Disciplined(P) && j <= k
    ensures Settled(EvalArgs(P, j, l, env, st), EvalArgs(P, k, l, env, st))
    decreases k - j
  {
    hide EvalArgs;
    if j < k {
      ArgsMore(P, j, l, env, st);
      ArgsMost(P, j + 1, k, l, env, st);
    }
  }

  lemma {:induction false} FoldMost(P: Primitives, j: nat, k: nat, fn: Fn, a: Ptr, b: Ptr, l: Ptr, env: Ptr, st: State)
    requires Disciplined(P) && j <= k
    ensures Settled(EvalFold(P, j, fn, a, b, l, env, st), EvalFold(P, k, fn, a, b, l, env, st))
    decreases k - j
  {
    hide EvalFold;
    if j < k {
      FoldMore(P, j, fn, a, b, l, env, st);
      FoldMost(P, j + 1, k, fn, a, b, l, env, st);
    }
  }

  lemma {:induction false} FnMost(P: Primitives, j: nat, k: nat, fn: Fn, args: seq<Ptr>, st: State)
    requires Disciplined(P) && j <= k
    ensures Settled(CallFn(P, j, fn, args, st), CallFn(P, k, fn, args, st))
    decreases k - j
  {
    hide CallFn;
    if j < k {
      FnMore(P, j, fn, args, st);
      FnMost(P, j + 1, k, fn, args, st);
    }
  }

  lemma {:induction false} SetMost(j: nat, k: nat, x: Ptr, v: Ptr, env: Ptr, st: State)
    requires j <= k
    ensures Settled(SetVar(j, x, v, env, st), SetVar(k, x, v, env, st))
    ensures Settled(DefineVar(j, x, v, env, st), DefineVar(k, x, v, env, st))
    decreases k - j
  {
    hide SetVar, DefineVar;
    if j < k {
      SetVarMore(j, x, v, env, st);
      SetMost(j + 1, k, x, v, env, st);
    }
  }

  /** There is one outcome at most. */
  lemma ComesOnce(P: Primitives, x: Ptr, env: Ptr, st: State, r: Outcome, q: Outcome)
    requires Disciplined(P) && Comes(P, x, env, st, r) && Comes(P, x, env, st, q)
    ensures r == q
  {
    hide Eval;
    var j: nat :| Eval(P, j, x, env, st) == r;
    var k: nat :| Eval(P, k, x, env, st) == q;
    EvalMost(P, j, if j <= k then k else j, x, env, st);
    EvalMost(P, k, if j <= k then k else j, x, env, st);
  }

  // ---- Forms ---------------------------------------------------------------------------

  /** Numbers, strings, functions and NIL are their own values. */
  lemma SelfRule(P: Primitives, x: Ptr, env: Ptr, st: State, r: Outcome)
    requires Disciplined(P) && !IsSymbol(x, st) && !IsCons(x, st)
    ensures Comes(P, x, env, st, r) <==> r == Done(x, st)
  {
    assert Eval(P, 1, x, env, st) == Done(x, st);
  }

  /** A name with no local variable has its global value, or it is an error. */
  lemma GlobalRule(P: Primitives, n: nat, x: Ptr, env: Ptr, st: State, r: Outcome)
    requires Disciplined(P) && IsSymbol(x, st) && Lookup(n, x, env, st) == Done(0, st)
    ensures Comes(P, x, env, st, r) <==> r == if x in st.globals then Done(st.globals[x], st) else Err("unbound variable", x, st)
  {
    hide Lookup, Err;
    var v := if x in st.globals then Done(st.globals[x], st) else Err("unbound variable", x, st);
    assert Eval(P, n + 1, x, env, st) == v;
    if Comes(P, x, env, st, r) {
      ComesOnce(P, x, env, st, r, v);
    }
  }

  /** A name with a local variable has the value in its cell. */
  lemma LocalRule(P: Primitives, n: nat, x: Ptr, env: Ptr, st: State, r: Outcome)
    requires Disciplined(P) && IsSymbol(x, st) && Lookup(n, x, env, st).Done? && Lookup(n, x, env, st).v != 0
    ensures var c := Lookup(n, x, env, st);
            IsCons(c.v, c.st) && (Comes(P, x, env, st, r) <==> r == Done(c.st.mem[c.v].car, c.st))
  {
    hide Lookup;
    var c := Lookup(n, x, env, st);
    assert Eval(P, n + 1, x, env, st) == Done(c.st.mem[c.v].car, c.st);
    if Comes(P, x, env, st, r) {
      ComesOnce(P, x, env, st, r, Done(c.st.mem[c.v].car, c.st));
    }
  }

  /** In a list the operator is evaluated like any form, and what it comes to is called. */
  lemma ListRule(P: Primitives, x: Ptr, env: Ptr, st: State, r: Outcome)
    requires Disciplined(P) && IsCons(x, st)
    ensures Comes(P, x, env, st, r) <==>
              exists f :: Comes(P, st.mem[x].car, env, st, f) && if f.Done? then CallComes(P, f.v, x, env, f.st, r) else r == f
  {
    hide Variable, Call;
    var head := st.mem[x].car;
    if Comes(P, x, env, st, r) {
      var k: nat :| Eval(P, k, x, env, st) == r;
      var f := if IsSymbol(head, st) then Variable(k - 1, head, env, st)
               else if IsCons(head, st) then Eval(P, k - 1, head, env, st)
               else Done(head, st);
      assert Eval(P, if IsCons(head, st) then k - 1 else k, head, env, st) == f;
      assert Comes(P, head, env, st, f);
      if f.Done? {
        assert Call(P, k - 1, f.v, x, env, f.st) == r;
      }
    }
    if f :| Comes(P, head, env, st, f) && if f.Done? then CallComes(P, f.v, x, env, f.st, r) else r == f {
      OperatorFirst(P, x, env, st, f, r);
    }
  }

  lemma OperatorFirst(P: Primitives, x: Ptr, env: Ptr, st: State, f: Outcome, r: Outcome)
    requires Disciplined(P) && IsCons(x, st) && Comes(P, st.mem[x].car, env, st, f)
    requires if f.Done? then CallComes(P, f.v, x, env, f.st, r) else r == f
    ensures Comes(P, x, env, st, r)
  {
    hide Variable, Call;
    var head := st.mem[x].car;
    var j: nat :| Eval(P, j, head, env, st) == f;
    if f.Done? {
      var k: nat :| Call(P, k, f.v, x, env, f.st) == r;
      var m := j + k + 1;
      OperatorMost(P, j, m, head, env, st, f);
      CallMost(P, k, m, f.v, x, env, f.st);
      assert Eval(P, m + 1, x, env, st) == r;
    } else {
      OperatorMost(P, j, j + 1, head, env, st, f);
      assert Eval(P, j + 2, x, env, st) == f;
    }
  }

  lemma OperatorMost(P: Primitives, j: nat, m: nat, head: Ptr, env: Ptr, st: State, f: Outcome)
    requires Disciplined(P) && Eval(P, j, head, env, st) == f && !f.Timeout? && j < m
    ensures f == if IsSymbol(head, st) then Variable(m, head, env, st)
                 else if IsCons(head, st) then Eval(P, m, head, env, st)
                 else Done(head, st)
  {
    hide Variable, Call;
    EvalMost(P, j, m + 1, head, env, st);
    EvalMost(P, j, m, head, env, st);
  }

  // ---- Calls -----------------------------------------------------------------------------

  lemma FSubrRule(P: Primitives, f: Ptr, x: Ptr, env: Ptr, st: State, r: Outcome)
    requires Disciplined(P) && IsCons(x, st) && 0 < f < |st.mem| && st.mem[f].FSubr?
    ensures CallComes(P, f, x, env, st, r) <==> FormComes(P, st.mem[f].form, st.mem[x].cdr, env, st, r)
  {
    hide EvalForm;
    var form, l := st.mem[f].form, st.mem[x].cdr;
    if CallComes(P, f, x, env, st, r) {
      var k: nat :| Call(P, k, f, x, env, st) == r;
      assert EvalForm(P, k - 1, form, l, env, st) == r;
    }
    if FormComes(P, form, l, env, st, r) {
      var k: nat :| EvalForm(P, k, form, l, env, st) == r;
      assert Call(P, k + 1, f, x, env, st) == r;
    }
  }

  lemma MSubrRule(P: Primitives, f: Ptr, x: Ptr, env: Ptr, st: State, r: Outcome)
    requires Disciplined(P) && IsCons(x, st) && 0 < f < |st.mem| && st.mem[f].MSubr?
    ensures CallComes(P, f, x, env, st, r) <==> TailComes(P, st.mem[f].tail, st.mem[x].cdr, env, st, r)
  {
    hide EvalTail, Eval;
    var tail, l := st.mem[f].tail, st.mem[x].cdr;
    if CallComes(P, f, x, env, st, r) {
      var k: nat :| Call(P, k, f, x, env, st) == r;
      var t := EvalTail(P, k - 1, tail, l, env, st);
      if t.Again? {
        assert Eval(P, k - 1, t.x, t.env, t.st) == r;
      }
      assert Leaves(P, t, r);
    }
    if TailComes(P, tail, l, env, st, r) {
      TailCalled(P, f, x, env, st, r);
    }
  }

  lemma TailCalled(P: Primitives, f: Ptr, x: Ptr, env: Ptr, st: State, r: Outcome)
    requires Disciplined(P) && IsCons(x, st) && 0 < f < |st.mem| && st.mem[f].MSubr?
    requires TailComes(P, st.mem[f].tail, st.mem[x].cdr, env, st, r)
    ensures CallComes(P, f, x, env, st, r)
  {
    hide EvalTail, Eval;
    var tail, l := st.mem[f].tail, st.mem[x].cdr;
    var j: nat :| Leaves(P, EvalTail(P, j, tail, l, env, st), r);
    var t := EvalTail(P, j, tail, l, env, st);
    if t.Again? {
      var k: nat :| Eval(P, k, t.x, t.env, t.st) == r;
      TailMost(P, j, j + k, tail, l, env, st);
      EvalMost(P, k, j + k, t.x, t.env, t.st);
      assert Call(P, j + k + 1, f, x, env, st) == r;
    } else {
      assert Call(P, j + 1, f, x, env, st) == r;
    }
  }

  /** A C function of `n` arguments gets the values of that many forms, from left to right. */
  lemma SubrRule(P: Primitives, f: Ptr, x: Ptr, env: Ptr, st: State, r: Outcome)
    requires Disciplined(P) && IsCons(x, st) && 0 < f < |st.mem| && st.mem[f].Subr? && st.mem[f].arity.Exactly?
    ensures CallComes(P, f, x, env, st, r) <==>
              exists a :: SomeComes(P, st.mem[f].arity.n, st.mem[x].cdr, env, st, a)
                       && if a.Values? then FnComes(P, st.mem[f].fn, a.vs, a.st, r) else r == a.o
  {
    hide EvalSome, CallFn;
    var n, fn, l := st.mem[f].arity.n, st.mem[f].fn, st.mem[x].cdr;
    if CallComes(P, f, x, env, st, r) {
      var k: nat :| Call(P, k, f, x, env, st) == r;
      var a := EvalSome(P, k - 1, n, l, env, st);
      assert SomeComes(P, n, l, env, st, a);
      if a.Values? {
        assert CallFn(P, k - 1, fn, a.vs, a.st) == r;
      }
    }
    forall a | SomeComes(P, n, l, env, st, a) && (if a.Values? then FnComes(P, fn, a.vs, a.st, r) else r == a.o)
      ensures CallComes(P, f, x, env, st, r)
    {
      var j: nat :| EvalSome(P, j, n, l, env, st) == a;
      if a.Values? {
        var k: nat :| CallFn(P, k, fn, a.vs, a.st) == r;
        SomeMost(P, j, j + k, n, l, env, st);
        FnMost(P, k, j + k, fn, a.vs, a.st);
        assert Call(P, j + k + 1, f, x, env, st) == r;
      } else {
        assert Call(P, j + 1, f, x, env, st) == r;
      }
    }
  }

  /** One of two arguments at least works from the left. */
  lemma FoldingRule(P: Primitives, f: Ptr, x: Ptr, env: Ptr, st: State, r: Outcome)
    requires Disciplined(P) && IsCons(x, st) && 0 < f < |st.mem| && st.mem[f].Subr? && st.mem[f].arity.TwoOrMore?
    ensures CallComes(P, f, x, env, st, r) <==>
              exists a :: SomeComes(P, 2, st.mem[x].cdr, env, st, a)
                       && if a.Values? then |a.vs| == 2 && FoldComes(P, st.mem[f].fn, a.vs[0], a.vs[1], a.rest, env, a.st, r) else r == a.o
  {
    hide EvalSome, EvalFold;
    var fn, l := st.mem[f].fn, st.mem[x].cdr;
    if CallComes(P, f, x, env, st, r) {
      var k: nat :| Call(P, k, f, x, env, st) == r;
      var a := EvalSome(P, k - 1, 2, l, env, st);
      assert SomeComes(P, 2, l, env, st, a);
      if a.Values? {
        assert EvalFold(P, k - 1, fn, a.vs[0], a.vs[1], a.rest, env, a.st) == r;
      }
    }
    forall a | SomeComes(P, 2, l, env, st, a)
            && (if a.Values? then |a.vs| == 2 && FoldComes(P, fn, a.vs[0], a.vs[1], a.rest, env, a.st, r) else r == a.o)
      ensures CallComes(P, f, x, env, st, r)
    {
      var j: nat :| EvalSome(P, j, 2, l, env, st) == a;
      if a.Values? {
        var k: nat :| EvalFold(P, k, fn, a.vs[0], a.vs[1], a.rest, env, a.st) == r;
        SomeMost(P, j, j + k, 2, l, env, st);
        FoldMost(P, k, j + k, fn, a.vs[0], a.vs[1], a.rest, env, a.st);
        assert Call(P, j + k + 1, f, x, env, st) == r;
      } else {
        assert Call(P, j + 1, f, x, env, st) == r;
      }
    }
  }


  /** It folds the C function over the values: each application comes before the next
      argument is evaluated. */
  lemma FoldRule(P: Primitives, fn: Fn, a: Ptr, b: Ptr, l: Ptr, env: Ptr, st: State, r: Outcome)
    requires Disciplined(P)
    ensures FoldComes(P, fn, a, b, l, env, st, r) <==>
              exists acc :: FnComes(P, fn, [a, b], st, acc) && Folds(P, fn, acc, l, env, r)
  {
    hide Eval, CallFn, Cdr;
    if FoldComes(P, fn, a, b, l, env, st, r) {
      var k: nat :| EvalFold(P, k, fn, a, b, l, env, st) == r;
      var acc := CallFn(P, k - 1, fn, [a, b], st);
      assert FnComes(P, fn, [a, b], st, acc);
      if acc.Done? {
        var next := Cdr(l, acc.st);
        if next.Done? && IsCons(next.v, acc.st) {
          var v := Eval(P, k - 1, acc.st.mem[next.v].car, env, acc.st);
          assert Comes(P, acc.st.mem[next.v].car, env, acc.st, v);
          if v.Done? {
            assert EvalFold(P, k - 1, fn, acc.v, v.v, next.v, env, v.st) == r;
          }
        }
      }
    }
    if acc :| FnComes(P, fn, [a, b], st, acc) && Folds(P, fn, acc, l, env, r) {
      FoldFrom(P, fn, a, b, acc, l, env, st, r);
    }
  }

  lemma FoldFrom(P: Primitives, fn: Fn, a: Ptr, b: Ptr, acc: Outcome, l: Ptr, env: Ptr, st: State, r: Outcome)
    requires Disciplined(P) && FnComes(P, fn, [a, b], st, acc) && Folds(P, fn, acc, l, env, r)
    ensures FoldComes(P, fn, a, b, l, env, st, r)
  {
    hide Eval, CallFn, Cdr;
    var i: nat :| CallFn(P, i, fn, [a, b], st) == acc;
    if acc.Done? && Cdr(l, acc.st).Done? && IsCons(Cdr(l, acc.st).v, acc.st) {
      var next := Cdr(l, acc.st).v;
      var v :| Comes(P, acc.st.mem[next].car, env, acc.st, v)
            && if v.Done? then FoldComes(P, fn, acc.v, v.v, next, env, v.st, r) else r == v;
      var j: nat :| Eval(P, j, acc.st.mem[next].car, env, acc.st) == v;
      if v.Done? {
        var k: nat :| EvalFold(P, k, fn, acc.v, v.v, next, env, v.st) == r;
        var m := i + j + k;
        FnMost(P, i, m, fn, [a, b], st);
        EvalMost(P, j, m, acc.st.mem[next].car, env, acc.st);
        FoldMost(P, k, m, fn, acc.v, v.v, next, env, v.st);
        assert EvalFold(P, m + 1, fn, a, b, l, env, st) == r;
      } else {
        FnMost(P, i, i + j, fn, [a, b], st);
        EvalMost(P, j, i + j, acc.st.mem[next].car, env, acc.st);
        assert EvalFold(P, i + j + 1, fn, a, b, l, env, st) == r;
      }
    } else {
      assert EvalFold(P, i + 1, fn, a, b, l, env, st) == r;
    }
  }

  /** What a fold makes of the value `acc` so far, at the cell `l` of the argument used last. */
  ghost predicate Folds(P: Primitives, fn: Fn, acc: Outcome, l: Ptr, env: Ptr, r: Outcome)
    requires Disciplined(P)
  {
    if !acc.Done? then r == acc
    else
      var next := Cdr(l, acc.st);
      if !next.Done? then r == next
      else if !IsCons(next.v, acc.st) then r == acc
      else
        exists v :: Comes(P, acc.st.mem[next.v].car, env, acc.st, v)
                 && if v.Done? then FoldComes(P, fn, acc.v, v.v, next.v, env, v.st, r) else r == v
  }

  /** The first of several arguments is evaluated first, and the list goes on where it does
      afterwards; NIL stands in for what is missing. */
  lemma SomeRule(P: Primitives, n: nat, l: Ptr, env: Ptr, st: State, a: Values)
    requires Disciplined(P)
    ensures SomeComes(P, 0, l, env, st, a) <==> a == Values([], l, st)
    ensures SomeComes(P, n + 1, l, env, st, a) <==>
              exists x :: Then(P, Car(l, st), env, x) && MoreValues(P, n, x, l, env, a)
  {
    hide Eval, Car, Cdr;
    assert EvalSome(P, 0, 0, l, env, st) == Values([], l, st);
    if SomeComes(P, n + 1, l, env, st, a) {
      var k: nat :| EvalSome(P, k, n + 1, l, env, st) == a;
      var c := Car(l, st);
      var x := if c.Done? then Eval(P, k - 1, c.v, env, st) else c;
      assert Then(P, c, env, x);
      if x.Done? && n > 0 && Cdr(l, x.st).Done? {
        var m := EvalSome(P, k - 1, n, Cdr(l, x.st).v, env, x.st);
        assert SomeComes(P, n, Cdr(l, x.st).v, env, x.st, m);
      }
    }
    if x :| Then(P, Car(l, st), env, x) && MoreValues(P, n, x, l, env, a) {
      FirstArgument(P, n, x, l, env, st, a);
    }
  }

  /** The values `a` of `n + 1` arguments, the first of which came to `x`. */
  ghost predicate MoreValues(P: Primitives, n: nat, x: Outcome, l: Ptr, env: Ptr, a: Values)
    requires Disciplined(P)
  {
    if !x.Done? then a == NoValues(x)
    else if n == 0 then a == Values([x.v], l, x.st)
    else
      var next := Cdr(l, x.st);
      if !next.Done? then a == NoValues(next)
      else exists m :: SomeComes(P, n, next.v, env, x.st, m)
                    && a == if m.Values? then Values([x.v] + m.vs, m.rest, m.st) else m
  }

  lemma FirstArgument(P: Primitives, n: nat, x: Outcome, l: Ptr, env: Ptr, st: State, a: Values)
    requires Disciplined(P) && Then(P, Car(l, st), env, x) && MoreValues(P, n, x, l, env, a)
    ensures SomeComes(P, n + 1, l, env, st, a)
  {
    hide Eval, Car, Cdr;
    var c := Car(l, st);
    if !c.Done? {
      assert EvalSome(P, 1, n + 1, l, env, st) == a;
    } else {
      var j: nat :| Eval(P, j, c.v, env, st) == x;
      if x.Done? && n > 0 && Cdr(l, x.st).Done? {
        var next := Cdr(l, x.st).v;
        var m :| SomeComes(P, n, next, env, x.st, m) && a == if m.Values? then Values([x.v] + m.vs, m.rest, m.st) else m;
        var k: nat :| EvalSome(P, k, n, next, env, x.st) == m;
        EvalMost(P, j, j + k, c.v, env, st);
        SomeMost(P, k, j + k, n, next, env, x.st);
        assert EvalSome(P, j + k + 1, n + 1, l, env, st) == a;
      } else {
        assert EvalSome(P, j + 1, n + 1, l, env, st) == a;
      }
    }
  }

  /** A closure over a form evaluates it where the parameters have the arguments. */
  lemma ClosureRule(P: Primitives, f: Ptr, x: Ptr, env: Ptr, st: State, r: Outcome)
    requires Disciplined(P) && IsCons(x, st) && 0 < f < |st.mem| && st.mem[f].Closure? && IsCons(st.mem[f].code, st)
    ensures CallComes(P, f, x, env, st, r) <==>
              exists a :: ArgsComes(P, st.mem[x].cdr, env, st, a)
                       && if a.Done? then Enters(P, a.v, st.mem[f].env, st.mem[f].code, a.st, r) else r == a
  {
    hide Eval, EvalArgs, Car, Cdr, Extend;
    var l, cenv, code := st.mem[x].cdr, st.mem[f].env, st.mem[f].code;
    if CallComes(P, f, x, env, st, r) {
      var k: nat :| Call(P, k, f, x, env, st) == r;
      var a := EvalArgs(P, k - 1, l, env, st);
      assert ArgsComes(P, l, env, st, a);
      if a.Done? {
        assert Enter(P, k - 1, a.v, cenv, code, a.st) == r;
        var formals := Car(code, a.st);
        if formals.Done? {
          var e := Extend(a.v, formals.v, cenv, a.st);
          var body := Cdr(code, e.st);
          assert body.Done? ==> Eval(P, k - 2, body.v, e.v, e.st) == r;
        }
      }
    }
    if a :| ArgsComes(P, l, env, st, a) && if a.Done? then Enters(P, a.v, cenv, code, a.st, r) else r == a {
      ClosureFrom(P, f, x, a, env, st, r);
    }
  }

  lemma ClosureFrom(P: Primitives, f: Ptr, x: Ptr, a: Outcome, env: Ptr, st: State, r: Outcome)
    requires Disciplined(P) && IsCons(x, st) && 0 < f < |st.mem| && st.mem[f].Closure? && IsCons(st.mem[f].code, st)
    requires ArgsComes(P, st.mem[x].cdr, env, st, a) && if a.Done? then Enters(P, a.v, st.mem[f].env, st.mem[f].code, a.st, r) else r == a
    ensures CallComes(P, f, x, env, st, r)
  {
    hide Eval, EvalArgs, Car, Cdr, Extend, Enter, Enters;
    var l, cenv, code := st.mem[x].cdr, st.mem[f].env, st.mem[f].code;
    var j: nat :| EvalArgs(P, j, l, env, st) == a;
    if a.Done? {
      var k := EntersBy(P, a.v, cenv, code, a.st, r);
      ArgsMost(P, j, j + k, l, env, st);
      EnterMost(P, k, j + k, a.v, cenv, code, a.st);
      assert Call(P, j + k + 1, f, x, env, st) == r;
    } else {
      assert Call(P, j + 1, f, x, env, st) == r;
    }
  }

  /** The body of the code, in an environment with one frame more than the closure has. */
  ghost predicate Enters(P: Primitives, args: Ptr, cenv: Ptr, code: Ptr, st: State, r: Outcome)
    requires Disciplined(P)
  {
    var formals := Car(code, st);
    if !formals.Done? then r == formals
    else
      var e := Extend(args, formals.v, cenv, st);
      Then(P, Cdr(code, e.st), e.v, r)
  }

  lemma EntersBy(P: Primitives, args: Ptr, cenv: Ptr, code: Ptr, st: State, r: Outcome) returns (k: nat)
    requires Disciplined(P) && Enters(P, args, cenv, code, st, r)
    ensures Enter(P, k, args, cenv, code, st) == r && !r.Timeout?
  {
    hide Eval, Car, Cdr, Extend;
    k := 1;
    var formals := Car(code, st);
    if formals.Done? {
      var e := Extend(args, formals.v, cenv, st);
      var body := Cdr(code, e.st);
      if body.Done? {
        var j: nat :| Eval(P, j, body.v, e.v, e.st) == r;
        k := j + 1;
      }
    }
  }

  lemma {:induction false} EnterMost(P: Primitives, j: nat, k: nat, args: Ptr, cenv: Ptr, code: Ptr, st: State)
    requires Disciplined(P) && j <= k
    ensures Settled(Enter(P, j, args, cenv, code, st), Enter(P, k, args, cenv, code, st))
    decreases k - j
  {
    hide Enter;
    if j < k {
      EnterMore(P, j, args, cenv, code, st);
      EnterMost(P, j + 1, k, args, cenv, code, st);
    }
  }

  // ---- Conditions and sequences --------------------------------------------------------

  /** `if`: the test, and then the second argument unless the test came to NIL, and the third
      if it did. */
  lemma IfRule(P: Primitives, l: Ptr, env: Ptr, st: State, r: Outcome)
    requires Disciplined(P)
    ensures TailComes(P, If, l, env, st, r) <==>
              exists c :: Then(P, Car(l, st), env, c) && Branches(P, l, c, env, r)
  {
    hide Eval, Car, Nth;
    var x := Car(l, st);
    if TailComes(P, If, l, env, st, r) {
      var k: nat :| Leaves(P, EvalTail(P, k, If, l, env, st), r);
      var c := if x.Done? then Eval(P, k - 1, x.v, env, st) else x;
      assert Then(P, x, env, c);
    }
    if c :| Then(P, x, env, c) && Branches(P, l, c, env, r) {
      if x.Done? {
        var j: nat :| Eval(P, j, x.v, env, st) == c;
        assert Leaves(P, EvalTail(P, j + 1, If, l, env, st), r);
      } else {
        assert Leaves(P, EvalTail(P, 1, If, l, env, st), r);
      }
    }
  }

  ghost predicate Branches(P: Primitives, l: Ptr, c: Outcome, env: Ptr, r: Outcome)
    requires Disciplined(P)
  {
    if !c.Done? then r == c
    else if c.v != 0 then Then(P, Nth(l, 1, c.st), env, r)
    else Then(P, Nth(l, 2, c.st), env, r)
  }

  /** `begin`, `or` and `and` with one form or none go on with it; `and` without any is true. */
  lemma LastRule(P: Primitives, tail: TailCode, l: Ptr, env: Ptr, st: State, r: Outcome)
    requires Disciplined(P) && tail in {Begin, Or, And} && (l == 0 || (IsCons(l, st) && st.mem[l].cdr == 0))
    ensures l != 0 ==> (TailComes(P, tail, l, env, st, r) <==> Comes(P, st.mem[l].car, env, st, r))
    ensures l == 0 && tail != And ==> (TailComes(P, tail, l, env, st, r) <==> r == Done(0, st))
    ensures l == 0 && tail == And ==> (TailComes(P, tail, l, env, st, r) <==> r == Done(T, st))
  {
    hide Eval;
    if l == 0 && tail == And {
      assert EvalTail(P, 1, And, 0, env, st) == Stop(Done(T, st));
    } else {
      var x := if l == 0 then 0 else st.mem[l].car;
      assert EvalTail(P, 2, tail, l, env, st) == Again(x, env, st) by {
        assert EvalSequence(P, 1, tail, l, env, st) == Again(x, env, st);
      }
      if l == 0 {
        SelfRule(P, 0, env, st, r);
      }
      if TailComes(P, tail, l, env, st, r) {
        var k: nat :| Leaves(P, EvalTail(P, k, tail, l, env, st), r);
        TailMost(P, k, k + 2, tail, l, env, st);
        TailMost(P, 2, k + 2, tail, l, env, st);
      }
    }
  }

  /** The sequence ends with `v`. */
  predicate Decides(tail: TailCode, v: Outcome) {
    !v.Done? || (tail == Or && v.v != 0) || (tail == And && v.v == 0)
  }

  /** With more forms the first is evaluated; an error or jump ends the sequence, a value
      other than NIL ends `or`, NIL ends `and`, and otherwise the rest follows. */
  lemma SequenceRule(P: Primitives, tail: TailCode, l: Ptr, env: Ptr, st: State, r: Outcome)
    requires Disciplined(P) && tail in {Begin, Or, And} && IsCons(l, st) && st.mem[l].cdr != 0
    ensures TailComes(P, tail, l, env, st, r) <==>
              exists v :: Comes(P, st.mem[l].car, env, st, v)
                       && if Decides(tail, v) then r == v else TailComes(P, tail, st.mem[l].cdr, env, v.st, r)
  {
    hide Eval, TailComes, Leaves, EvalSequence;
    var x, next := st.mem[l].car, st.mem[l].cdr;
    if TailComes(P, tail, l, env, st, r) {
      var k := TailSteps(P, tail, l, env, st, r);
      var v := Eval(P, k - 1, x, env, st);
      SequenceStep(P, k - 1, tail, l, env, st);
      if Decides(tail, v) {
        StopLeaves(P, v, r);
      } else {
        TailBy(P, k - 1, tail, next, env, v.st, r);
      }
      assert v.Timeout? ==> Decides(tail, v);
      assert Comes(P, x, env, st, v);
    }
    if v :| Comes(P, x, env, st, v) && if Decides(tail, v) then r == v else TailComes(P, tail, next, env, v.st, r) {
      SequenceFrom(P, tail, l, v, env, st, r);
    }
  }

  lemma SequenceFrom(P: Primitives, tail: TailCode, l: Ptr, v: Outcome, env: Ptr, st: State, r: Outcome)
    requires Disciplined(P) && tail in {Begin, Or, And} && IsCons(l, st) && st.mem[l].cdr != 0
    requires Comes(P, st.mem[l].car, env, st, v) && if Decides(tail, v) then r == v else TailComes(P, tail, st.mem[l].cdr, env, v.st, r)
    ensures TailComes(P, tail, l, env, st, r)
  {
    hide Eval, TailComes, Leaves, EvalSequence;
    var x, next := st.mem[l].car, st.mem[l].cdr;
    var j: nat :| Eval(P, j, x, env, st) == v;
    SequenceStep(P, j, tail, l, env, st);
    if Decides(tail, v) {
      StopLeaves(P, v, r);
      TailBy(P, j + 1, tail, l, env, st, r);
    } else {
      var k := TailSteps(P, tail, next, env, v.st, r);
      EvalMost(P, j, j + k, x, env, st);
      SequenceStep(P, j + k, tail, l, env, st);
      SequenceMost(P, k, j + k, tail, next, env, v.st);
      LeavesSettled(P, EvalSequence(P, k, tail, next, env, v.st), EvalSequence(P, j + k, tail, next, env, v.st), r);
      TailBy(P, j + k + 1, tail, l, env, st, r);
    }
  }

  lemma SequenceStep(P: Primitives, k: nat, tail: TailCode, l: Ptr, env: Ptr, st: State)
    requires Disciplined(P) && IsCons(l, st) && st.mem[l].cdr != 0
    ensures var v := Eval(P, k, st.mem[l].car, env, st);
            EvalSequence(P, k + 1, tail, l, env, st)
            == if Decides(tail, v) then Stop(v) else EvalSequence(P, k, tail, st.mem[l].cdr, env, v.st)
  {
    hide Eval;
  }

  lemma StopLeaves(P: Primitives, v: Outcome, r: Outcome)
    requires Disciplined(P)
    ensures Leaves(P, Stop(v), r) <==> v == r && !r.Timeout?
  {
  }

  lemma LeavesSettled(P: Primitives, t: Tail, u: Tail, r: Outcome)
    requires Disciplined(P) && SettledTail(t, u) && Leaves(P, t, r)
    ensures Leaves(P, u, r)
  {
    hide Comes;
  }

  lemma TailSteps(P: Primitives, tail: TailCode, l: Ptr, env: Ptr, st: State, r: Outcome) returns (k: nat)
    requires Disciplined(P) && tail in {Begin, Or, And} && l != 0 && TailComes(P, tail, l, env, st, r)
    ensures k > 0 && Leaves(P, EvalSequence(P, k, tail, l, env, st), r)
  {
    hide EvalSequence, Comes;
    var j: nat :| Leaves(P, EvalTail(P, j, tail, l, env, st), r);
    k := j - 1;
    assert EvalSequence(P, 0, tail, l, env, st) == Stop(Timeout) by { NoStepsLeft(P, tail, l, env, st); }
  }

  lemma NoStepsLeft(P: Primitives, tail: TailCode, l: Ptr, env: Ptr, st: State)
    requires Disciplined(P)
    ensures EvalSequence(P, 0, tail, l, env, st) == Stop(Timeout)
  {
  }

  lemma TailBy(P: Primitives, k: nat, tail: TailCode, l: Ptr, env: Ptr, st: State, r: Outcome)
    requires Disciplined(P) && tail in {Begin, Or, And} && l != 0 && Leaves(P, EvalSequence(P, k, tail, l, env, st), r)
    ensures TailComes(P, tail, l, env, st, r)
  {
    hide EvalSequence, Leaves;
    assert EvalTail(P, k + 1, tail, l, env, st) == EvalSequence(P, k, tail, l, env, st);
  }

  ghost predicate Follows(P: Primitives, l: Ptr, a: Outcome, env: Ptr, r: Outcome)
    requires Disciplined(P)
  {
    if !a.Done? then r == a
    else
      var next := Cdr(l, a.st);
      if next.Done? then EachComes(P, next.v, a.v, env, a.st, r) else r == next
  }

  /** The forms of a body in turn; the last value counts. */
  lemma EachRule(P: Primitives, l: Ptr, v: Ptr, env: Ptr, st: State, r: Outcome)
    requires Disciplined(P)
    ensures l == 0 ==> (EachComes(P, l, v, env, st, r) <==> r == Done(v, st))
    ensures l != 0 ==>
              (EachComes(P, l, v, env, st, r) <==>
               exists a :: Then(P, Car(l, st), env, a) && Follows(P, l, a, env, r))
  {
    hide Eval, Car, Cdr;
    if l == 0 {
      assert EvalEach(P, 1, l, v, env, st) == Done(v, st);
    } else {
      var x := Car(l, st);
      if EachComes(P, l, v, env, st, r) {
        var k: nat :| EvalEach(P, k, l, v, env, st) == r;
        var a := if x.Done? then Eval(P, k - 1, x.v, env, st) else x;
        assert Then(P, x, env, a);
        if a.Done? && Cdr(l, a.st).Done? {
          assert EvalEach(P, k - 1, Cdr(l, a.st).v, a.v, env, a.st) == r;
        }
      }
      if a :| Then(P, x, env, a) && Follows(P, l, a, env, r) {
        if !x.Done? {
          assert EvalEach(P, 1, l, v, env, st) == r;
        } else {
          var j: nat :| Eval(P, j, x.v, env, st) == a;
          if a.Done? && Cdr(l, a.st).Done? {
            var k: nat :| EvalEach(P, k, Cdr(l, a.st).v, a.v, env, a.st) == r;
            EvalMost(P, j, j + k, x.v, env, st);
            EachMost(P, k, j + k, Cdr(l, a.st).v, a.v, env, a.st);
            assert EvalEach(P, j + k + 1, l, v, env, st) == r;
          } else {
            assert EvalEach(P, j + 1, l, v, env, st) == r;
          }
        }
      }
    }
  }

  // ---- The other special forms -----------------------------------------------------------

  /** `while`: the test; NIL ends the loop with NIL, and otherwise the body comes in turn and
      then the loop again. */
  lemma WhileRule(P: Primitives, args: Ptr, env: Ptr, st: State, r: Outcome)
    requires Disciplined(P)
    ensures FormComes(P, While, args, env, st, r) <==>
              exists c :: Then(P, Car(args, st), env, c)
                       && (!c.Done? ==> r == c)
                       && (c.Done? && c.v == 0 ==> r == Done(0, c.st))
                       && (c.Done? && c.v != 0 ==> Repeats(P, args, c.st, env, r))
  {
    hide Eval, EvalEach, Car, Cdr;
    var x := Car(args, st);
    if FormComes(P, While, args, env, st, r) {
      var k: nat :| EvalForm(P, k, While, args, env, st) == r;
      var c := if x.Done? then Eval(P, k - 1, x.v, env, st) else x;
      assert Then(P, x, env, c);
      if c.Done? && c.v != 0 {
        RepeatsIn(P, k - 1, args, c.st, env, r);
      }
    }
    if c :| Then(P, x, env, c) && (!c.Done? ==> r == c) && (c.Done? && c.v == 0 ==> r == Done(0, c.st))
            && (c.Done? && c.v != 0 ==> Repeats(P, args, c.st, env, r)) {
      WhileFrom(P, args, c, env, st, r);
    }
  }

  lemma WhileFrom(P: Primitives, args: Ptr, c: Outcome, env: Ptr, st: State, r: Outcome)
    requires Disciplined(P)
    requires Then(P, Car(args, st), env, c) && (!c.Done? ==> r == c) && (c.Done? && c.v == 0 ==> r == Done(0, c.st))
            && (c.Done? && c.v != 0 ==> Repeats(P, args, c.st, env, r))
    ensures FormComes(P, While, args, env, st, r)
  {
    hide Eval, EvalEach, Car, Cdr, Repeats;
    var x := Car(args, st);
    if !x.Done? {
      assert EvalForm(P, 1, While, args, env, st) == r;
    } else {
      var j: nat :| Eval(P, j, x.v, env, st) == c;
      if c.Done? && c.v != 0 {
        var k := RepeatsBy(P, j, args, c.st, env, r);
        EvalMost(P, j, k, x.v, env, st);
        assert EvalForm(P, k + 1, While, args, env, st) == r;
      } else {
        assert EvalForm(P, j + 1, While, args, env, st) == r;
      }
    }
  }

  /** The body of a loop and then the loop. */
  ghost predicate Repeats(P: Primitives, args: Ptr, st: State, env: Ptr, r: Outcome)
    requires Disciplined(P)
  {
    var body := Cdr(args, st);
    if !body.Done? then r == body
    else exists b :: EachComes(P, body.v, 0, env, st, b) && if b.Done? then FormComes(P, While, args, env, b.st, r) else r == b
  }

  /** A turn of the loop whose test did not come to NIL, with `k` steps. */
  function Turn(P: Primitives, k: nat, args: Ptr, st: State, env: Ptr): Outcome
    requires Disciplined(P)
  {
    var body := Cdr(args, st);
    if !body.Done? then body
    else
      var b := EvalEach(P, k, body.v, 0, env, st);
      if b.Done? then EvalForm(P, k, While, args, env, b.st) else b
  }

  lemma RepeatsIn(P: Primitives, k: nat, args: Ptr, st: State, env: Ptr, r: Outcome)
    requires Disciplined(P) && Turn(P, k, args, st, env) == r && !r.Timeout?
    ensures Repeats(P, args, st, env, r)
  {
    hide EvalEach, EvalForm, Cdr;
    var body := Cdr(args, st);
    if body.Done? {
      var b := EvalEach(P, k, body.v, 0, env, st);
      assert EachComes(P, body.v, 0, env, st, b);
    }
  }

  lemma RepeatsBy(P: Primitives, j: nat, args: Ptr, st: State, env: Ptr, r: Outcome) returns (k: nat)
    requires Disciplined(P) && Repeats(P, args, st, env, r)
    ensures k >= j && Turn(P, k, args, st, env) == r && !r.Timeout?
  {
    hide EvalEach, EvalForm, Cdr;
    k := j;
    var body := Cdr(args, st);
    if body.Done? {
      var b :| EachComes(P, body.v, 0, env, st, b) && if b.Done? then FormComes(P, While, args, env, b.st, r) else r == b;
      var i: nat :| EvalEach(P, i, body.v, 0, env, st) == b;
      k := j + i;
      if b.Done? {
        var m: nat :| EvalForm(P, m, While, args, env, b.st) == r;
        k := j + i + m;
        FormMost(P, m, k, While, args, env, b.st);
      }
      EachMost(P, i, k, body.v, 0, env, st);
    }
  }

  /** `quote` and `the-environment`. */
  lemma QuoteRule(P: Primitives, args: Ptr, env: Ptr, st: State, r: Outcome)
    requires Disciplined(P)
    ensures FormComes(P, Quote, args, env, st, r) <==> r == Car(args, st)
    ensures FormComes(P, Environment, args, env, st, r) <==> r == Done(env, st)
  {
    assert EvalForm(P, 1, Quote, args, env, st) == Car(args, st);
    assert EvalForm(P, 1, Environment, args, env, st) == Done(env, st);
  }

  predicate IsList(l: Ptr, st: State) {
    l == 0 || IsCons(l, st)
  }

  function Head(l: Ptr, st: State): Ptr
    requires IsList(l, st)
  {
    if l == 0 then 0 else st.mem[l].car
  }

  function Others(l: Ptr, st: State): Ptr
    requires IsList(l, st)
  {
    if l == 0 then 0 else st.mem[l].cdr
  }

  /** `lambda` with one form, or none, makes a closure of the formals and that form over the
      environment; several forms it makes into a `begin`. */
  lemma LambdaRule(P: Primitives, args: Ptr, env: Ptr, st: State, r: Outcome)
    requires Disciplined(P) && IsList(args, st) && IsList(Others(args, st), st) && IsList(Others(Others(args, st), st), st)
    ensures var (formals, forms, p) := (Head(args, st), Others(args, st), |st.mem|);
            FormComes(P, Lambda, args, env, st, r) <==>
              r == if Others(forms, st) == 0 then Done(p + 1, st.(mem := st.mem + [Cons(formals, Head(forms, st)), Closure(env, p)]))
                   else Done(p + 2, st.(mem := st.mem + [Cons(BEGIN, forms), Cons(formals, p), Closure(env, p + 1)]))
  {
    var v := MakeClosure(args, env, st);
    assert EvalForm(P, 1, Lambda, args, env, st) == v;
    assert Drop(args, 1, st) == Done(Others(args, st), st);
    assert Drop(args, 2, st) == Done(Others(Others(args, st), st), st);
  }

  /** `set!`: the second argument is evaluated, and then the first is the name to assign. */
  lemma SetqRule(P: Primitives, args: Ptr, env: Ptr, st: State, r: Outcome)
    requires Disciplined(P)
    ensures FormComes(P, SetQ, args, env, st, r) <==>
              exists v :: Then(P, Nth(args, 1, st), env, v)
                       && (!v.Done? ==> r == v)
                       && (v.Done? && Car(args, v.st).Done? ==> Assigns(Car(args, v.st).v, v.v, env, v.st, r))
                       && (v.Done? && !Car(args, v.st).Done? ==> r == Car(args, v.st))
  {
    hide Eval, SetVar, Car, Nth;
    var x := Nth(args, 1, st);
    if FormComes(P, SetQ, args, env, st, r) {
      var k: nat :| EvalForm(P, k, SetQ, args, env, st) == r;
      var v := if x.Done? then Eval(P, k - 1, x.v, env, st) else x;
      assert Then(P, x, env, v);
      if v.Done? && Car(args, v.st).Done? {
        assert SetVar(k - 1, Car(args, v.st).v, v.v, env, v.st) == r;
      }
    }
    if v :| Then(P, x, env, v) && (!v.Done? ==> r == v)
            && (v.Done? && Car(args, v.st).Done? ==> Assigns(Car(args, v.st).v, v.v, env, v.st, r))
            && (v.Done? && !Car(args, v.st).Done? ==> r == Car(args, v.st)) {
      SetqFrom(P, args, v, env, st, r);
    }
  }

  lemma SetqFrom(P: Primitives, args: Ptr, v: Outcome, env: Ptr, st: State, r: Outcome)
    requires Disciplined(P)
    requires Then(P, Nth(args, 1, st), env, v) && (!v.Done? ==> r == v)
            && (v.Done? && Car(args, v.st).Done? ==> Assigns(Car(args, v.st).v, v.v, env, v.st, r))
            && (v.Done? && !Car(args, v.st).Done? ==> r == Car(args, v.st))
    ensures FormComes(P, SetQ, args, env, st, r)
  {
    hide Eval, SetVar, Car, Nth;
    var x := Nth(args, 1, st);
    if !x.Done? {
      assert EvalForm(P, 1, SetQ, args, env, st) == r;
    } else {
      var j: nat :| Eval(P, j, x.v, env, st) == v;
      if v.Done? && Car(args, v.st).Done? {
        var k: nat :| SetVar(k, Car(args, v.st).v, v.v, env, v.st) == r;
        EvalMost(P, j, j + k, x.v, env, st);
        SetMost(k, j + k, Car(args, v.st).v, v.v, env, v.st);
        assert EvalForm(P, j + k + 1, SetQ, args, env, st) == r;
      } else {
        assert EvalForm(P, j + 1, SetQ, args, env, st) == r;
      }
    }
  }

  /** `set`: both arguments are evaluated, the name first. */
  lemma SetRule(P: Primitives, args: Ptr, env: Ptr, st: State, r: Outcome)
    requires Disciplined(P)
    ensures FormComes(P, Set, args, env, st, r) <==>
              exists a :: SomeComes(P, 2, args, env, st, a)
                       && if a.Values? then |a.vs| == 2 && Assigns(a.vs[0], a.vs[1], env, a.st, r) else r == a.o
  {
    hide EvalSome, SetVar;
    if FormComes(P, Set, args, env, st, r) {
      var k: nat :| EvalForm(P, k, Set, args, env, st) == r;
      var a := EvalSome(P, k - 1, 2, args, env, st);
      assert SomeComes(P, 2, args, env, st, a);
      if a.Values? {
        assert SetVar(k - 1, a.vs[0], a.vs[1], env, a.st) == r;
      }
    }
    if a :| SomeComes(P, 2, args, env, st, a)
            && if a.Values? then |a.vs| == 2 && Assigns(a.vs[0], a.vs[1], env, a.st, r) else r == a.o {
      SetFrom(P, args, a, env, st, r);
    }
  }

  lemma SetFrom(P: Primitives, args: Ptr, a: Values, env: Ptr, st: State, r: Outcome)
    requires Disciplined(P)
    requires SomeComes(P, 2, args, env, st, a)
            && if a.Values? then |a.vs| == 2 && Assigns(a.vs[0], a.vs[1], env, a.st, r) else r == a.o
    ensures FormComes(P, Set, args, env, st, r)
  {
    hide EvalSome, SetVar;
    var j: nat :| EvalSome(P, j, 2, args, env, st) == a;
    if a.Values? {
      var k: nat :| SetVar(k, a.vs[0], a.vs[1], env, a.st) == r;
      SomeMost(P, j, j + k, 2, args, env, st);
      SetMost(k, j + k, a.vs[0], a.vs[1], env, a.st);
      assert EvalForm(P, j + k + 1, Set, args, env, st) == r;
    } else {
      assert EvalForm(P, j + 1, Set, args, env, st) == r;
    }
  }

  /** `define` of a name: the form is evaluated where the definition stands. */
  lemma DefineRule(P: Primitives, args: Ptr, env: Ptr, st: State, r: Outcome)
    requires Disciplined(P) && IsCons(args, st) && IsSymbol(st.mem[args].car, st)
    ensures FormComes(P, Define, args, env, st, r) <==>
              exists v :: Then(P, Nth(args, 1, st), env, v)
                       && if v.Done? then Defines(st.mem[args].car, v.v, env, v.st, r) else r == v
  {
    hide Eval, DefineVar, Nth;
    var name, x := st.mem[args].car, Nth(args, 1, st);
    if FormComes(P, Define, args, env, st, r) {
      var k: nat :| EvalForm(P, k, Define, args, env, st) == r;
      DefineIs(P, k, args, env, st);
      var v := if x.Done? then Eval(P, k - 2, x.v, env, st) else x;
      assert Then(P, x, env, v);
      if v.Done? {
        assert DefineVar(k - 2, name, v.v, env, v.st) == r;
      }
    }
    if v :| Then(P, x, env, v) && if v.Done? then Defines(name, v.v, env, v.st, r) else r == v {
      DefineFrom(P, args, v, env, st, r);
    }
  }

  lemma DefineFrom(P: Primitives, args: Ptr, v: Outcome, env: Ptr, st: State, r: Outcome)
    requires Disciplined(P) && IsCons(args, st) && IsSymbol(st.mem[args].car, st)
    requires Then(P, Nth(args, 1, st), env, v) && if v.Done? then Defines(st.mem[args].car, v.v, env, v.st, r) else r == v
    ensures FormComes(P, Define, args, env, st, r)
  {
    hide Eval, EvalForm, DefineVar, Nth;
    var name, x := st.mem[args].car, Nth(args, 1, st);
    if !x.Done? {
      DefineIs(P, 3, args, env, st);
      assert EvalForm(P, 3, Define, args, env, st) == r;
    } else {
      var j: nat :| Eval(P, j, x.v, env, st) == v;
      var m := j + 1;
      if v.Done? {
        var k: nat :| DefineVar(k, name, v.v, env, v.st) == r;
        m := j + k + 1;
        SetMost(k, m, name, v.v, env, v.st);
      }
      EvalMost(P, j, m, x.v, env, st);
      DefineIs(P, m + 2, args, env, st);
      assert EvalForm(P, m + 2, Define, args, env, st) == r;
    }
  }

  lemma DefineIs(P: Primitives, k: nat, args: Ptr, env: Ptr, st: State)
    requires Disciplined(P) && IsCons(args, st) && IsSymbol(st.mem[args].car, st)
    ensures k < 3 ==> EvalForm(P, k, Define, args, env, st).Timeout?
    ensures k >= 3 ==>
              EvalForm(P, k, Define, args, env, st)
              == var x := Nth(args, 1, st);
                 if !x.Done? then x
                 else
                   var v := Eval(P, k - 2, x.v, env, st);
                   if v.Done? then DefineVar(k - 2, st.mem[args].car, v.v, env, v.st) else v
  {
    hide Eval, DefineVar, Nth;
    if k >= 3 {
      assert SyntaxDefine(k - 2, args, st) == Done(args, st);
    } else if k == 2 {
      assert SyntaxDefine(0, args, st).Timeout?;
    }
  }


  /** The rest of a definition once it has been rewritten. */
  function Defining(P: Primitives, k: nat, d: Outcome, env: Ptr): Outcome
    requires Disciplined(P)
  {
    if !d.Done? then d
    else
      var name, x := Car(d.v, d.st), Nth(d.v, 1, d.st);
      if !name.Done? then name
      else if !IsSymbol(name.v, d.st) then Err("wta(non-symbol) to define", name.v, d.st)
      else if !x.Done? then x
      else
        var v := Eval(P, k, x.v, env, d.st);
        if v.Done? then DefineVar(k, name.v, v.v, env, v.st) else v
  }

  lemma DefineBySyntax(P: Primitives, k: nat, args: Ptr, env: Ptr, st: State)
    requires Disciplined(P) && k >= 2
    ensures EvalForm(P, k, Define, args, env, st) == Defining(P, k - 2, SyntaxDefine(k - 2, args, st), env)
  {
    hide Eval, DefineVar, Nth, Car, SyntaxDefine;
  }

  /** (define (f . formals) . body) is (define f (lambda formals . body)). */
  lemma DefineFunctionRule(P: Primitives, args: Ptr, env: Ptr, st: State, r: Outcome)
    requires Disciplined(P) && IsCons(args, st) && IsCons(st.mem[args].car, st)
    ensures var (h, p) := (st.mem[st.mem[args].car], |st.mem|);
            FormComes(P, Define, args, env, st, r) <==>
            FormComes(P, Define, p + 3, env, st.(mem := st.mem
              + [Cons(h.cdr, st.mem[args].cdr), Cons(LAMBDA, p), Cons(p + 1, 0), Cons(h.car, p + 2)]), r)
  {
    hide EvalForm, Defining, SyntaxDefine;
    var h, p := st.mem[st.mem[args].car], |st.mem|;
    var s := st.(mem := st.mem + [Cons(h.cdr, st.mem[args].cdr), Cons(LAMBDA, p), Cons(p + 1, 0), Cons(h.car, p + 2)]);
    if FormComes(P, Define, args, env, st, r) {
      var j: nat :| EvalForm(P, j, Define, args, env, st) == r;
      var k := j + 3;
      FormMost(P, j, k, Define, args, env, st);
      OneRewriting(P, k, args, env, st, s);
      assert EvalForm(P, k, Define, p + 3, env, s) == r;
    }
    if FormComes(P, Define, p + 3, env, s, r) {
      var j: nat :| EvalForm(P, j, Define, p + 3, env, s) == r;
      var k := j + 3;
      FormMost(P, j, k - 1, Define, p + 3, env, s);
      SameDefinition(P, k, args, env, st, s);
      assert EvalForm(P, k, Define, args, env, st) == r;
    }
  }

  lemma SyntaxStep(k: nat, args: Ptr, st: State, s: State)
    requires IsCons(args, st) && IsCons(st.mem[args].car, st)
    requires var (h, p) := (st.mem[st.mem[args].car], |st.mem|);
             s == st.(mem := st.mem + [Cons(h.cdr, st.mem[args].cdr), Cons(LAMBDA, p), Cons(p + 1, 0), Cons(h.car, p + 2)])
    ensures SyntaxDefine(k + 1, args, st) == SyntaxDefine(k, |st.mem| + 3, s)
  {
  }

  lemma OneRewriting(P: Primitives, k: nat, args: Ptr, env: Ptr, st: State, s: State)
    requires Disciplined(P) && k >= 3 && IsCons(args, st) && IsCons(st.mem[args].car, st)
    requires var (h, p) := (st.mem[st.mem[args].car], |st.mem|);
             s == st.(mem := st.mem + [Cons(h.cdr, st.mem[args].cdr), Cons(LAMBDA, p), Cons(p + 1, 0), Cons(h.car, p + 2)])
    ensures var a := EvalForm(P, k, Define, args, env, st); a.Timeout? || EvalForm(P, k, Define, |st.mem| + 3, env, s) == a
  {
    hide EvalForm, SyntaxDefine, Eval, DefineVar, Car, Nth, Err;
    DefineBySyntax(P, k, args, env, st);
    DefineBySyntax(P, k, |st.mem| + 3, env, s);
    SyntaxStep(k - 3, args, st, s);
    SyntaxMore(k - 3, |st.mem| + 3, s);
  }

  lemma SameDefinition(P: Primitives, k: nat, args: Ptr, env: Ptr, st: State, s: State)
    requires Disciplined(P) && k >= 3 && IsCons(args, st) && IsCons(st.mem[args].car, st)
    requires var (h, p) := (st.mem[st.mem[args].car], |st.mem|);
             s == st.(mem := st.mem + [Cons(h.cdr, st.mem[args].cdr), Cons(LAMBDA, p), Cons(p + 1, 0), Cons(h.car, p + 2)])
    ensures var a := EvalForm(P, k - 1, Define, |st.mem| + 3, env, s); a.Timeout? || EvalForm(P, k, Define, args, env, st) == a
  {
    hide EvalForm, SyntaxDefine, Eval, DefineVar, Car, Nth, Err;
    DefineBySyntax(P, k, args, env, st);
    DefineBySyntax(P, k - 1, |st.mem| + 3, env, s);
    SyntaxStep(k - 3, args, st, s);
    var d := SyntaxDefine(k - 3, |st.mem| + 3, s);
    DefiningMore(P, k - 3, d, env);
  }

  lemma DefiningMore(P: Primitives, k: nat, d: Outcome, env: Ptr)
    requires Disciplined(P)
    ensures Settled(Defining(P, k, d, env), Defining(P, k + 1, d, env))
  {
    hide Eval, DefineVar, Car, Nth, Err;
    if d.Done? && Nth(d.v, 1, d.st).Done? && Car(d.v, d.st).Done? {
      var name, x := Car(d.v, d.st).v, Nth(d.v, 1, d.st).v;
      EvalMore(P, k, x, env, d.st);
      var v := Eval(P, k, x, env, d.st);
      if v.Done? {
        SetVarMore(k, name, v.v, env, v.st);
      }
    }
  }

  // ---- Catch and throw -------------------------------------------------------------------

  /** `*catch`: the tag, and then the forms of the body with a frame for it.  A body that
      finishes, or a jump to the frame, ends it with the frames as they were; any other jump
      goes on. */
  lemma CatchRule(P: Primitives, args: Ptr, env: Ptr, st: State, r: Outcome)
    requires Disciplined(P)
    ensures FormComes(P, Catch, args, env, st, r) <==>
              exists t :: Then(P, Car(args, st), env, t) && if t.Done? then Catching(P, t.v, args, env, t.st, r) else r == t
  {
    hide Eval, Car, EvalFramed, Catching;
    var x := Car(args, st);
    if FormComes(P, Catch, args, env, st, r) {
      var k: nat :| EvalForm(P, k, Catch, args, env, st) == r;
      CatchIs(P, k, args, env, st);
      var t := if x.Done? then Eval(P, k - 2, x.v, env, st) else x;
      assert Then(P, x, env, t);
      if t.Done? {
        CatchingIn(P, k - 2, t.v, args, env, t.st, r);
      }
    }
    if t :| Then(P, x, env, t) && if t.Done? then Catching(P, t.v, args, env, t.st, r) else r == t {
      if !x.Done? {
        CatchIs(P, 2, args, env, st);
        assert EvalForm(P, 2, Catch, args, env, st) == r;
      } else {
        var j: nat :| Eval(P, j, x.v, env, st) == t;
        var k := j;
        if t.Done? {
          k := CatchingBy(P, j, t.v, args, env, t.st, r);
        }
        EvalMost(P, j, k, x.v, env, st);
        CatchIs(P, k + 2, args, env, st);
        assert EvalForm(P, k + 2, Catch, args, env, st) == r;
      }
    }
  }

  lemma CatchIs(P: Primitives, k: nat, args: Ptr, env: Ptr, st: State)
    requires Disciplined(P)
    ensures k < 2 ==> EvalForm(P, k, Catch, args, env, st).Timeout?
    ensures k >= 2 ==>
              EvalForm(P, k, Catch, args, env, st)
              == var x := Car(args, st);
                 if !x.Done? then x
                 else
                   var t := Eval(P, k - 2, x.v, env, st);
                   if t.Done? then EvalFramed(P, k - 2, t.v, args, env, t.st) else t
  {
    hide Eval, Car, EvalFramed;
  }

  /** The body of a catch with the tag `tag`, and how it ends. */
  ghost predicate Catching(P: Primitives, tag: Ptr, args: Ptr, env: Ptr, st: State, r: Outcome)
    requires Disciplined(P)
  {
    var s := st.(frames := st.frames + [tag]);
    var body := Cdr(args, s);
    exists b :: (if body.Done? then EachComes(P, body.v, 0, env, s, b) else b == body) && Ends(st.frames, b, r)
  }

  /** A body that finishes, or a jump to the frame after the frames `f`, leaves `f`. */
  predicate Ends(f: seq<Ptr>, b: Outcome, r: Outcome) {
    match b
    case Done(v, s) => r == Done(v, s.(frames := f))
    case Jump(d, v, _, s) => r == if d == |f| + 1 then Done(v, s.(frames := f)) else b
    case _ => r == b && !b.Timeout?
  }

  lemma CatchingIn(P: Primitives, k: nat, tag: Ptr, args: Ptr, env: Ptr, st: State, r: Outcome)
    requires Disciplined(P) && EvalFramed(P, k, tag, args, env, st) == r && !r.Timeout?
    ensures Catching(P, tag, args, env, st, r)
  {
    hide EvalEach, Cdr;
    var s := st.(frames := st.frames + [tag]);
    var body := Cdr(args, s);
    var b := if body.Done? then EvalEach(P, k - 1, body.v, 0, env, s) else body;
    assert (st.frames + [tag])[..|st.frames|] == st.frames;
    assert Ends(st.frames, b, r);
    assert body.Done? ==> EachComes(P, body.v, 0, env, s, b);
  }

  lemma FramedIs(P: Primitives, k: nat, tag: Ptr, args: Ptr, env: Ptr, st: State)
    requires Disciplined(P) && k > 0
    ensures var s := st.(frames := st.frames + [tag]);
            var body := Cdr(args, s);
            var b := if body.Done? then EvalEach(P, k - 1, body.v, 0, env, s) else body;
            b.Timeout? || Ends(st.frames, b, EvalFramed(P, k, tag, args, env, st))
  {
    hide EvalEach, Cdr;
    assert (st.frames + [tag])[..|st.frames|] == st.frames;
  }

  lemma EndsOnce(f: seq<Ptr>, b: Outcome, q: Outcome, r: Outcome)
    requires Ends(f, b, q) && Ends(f, b, r)
    ensures q == r && !r.Timeout?
  {
  }

  lemma CatchingBy(P: Primitives, j: nat, tag: Ptr, args: Ptr, env: Ptr, st: State, r: Outcome) returns (k: nat)
    requires Disciplined(P) && Catching(P, tag, args, env, st, r)
    ensures k >= j && EvalFramed(P, k, tag, args, env, st) == r && !r.Timeout?
  {
    hide EvalEach, EvalFramed, Cdr, Ends;
    var s := st.(frames := st.frames + [tag]);
    var body := Cdr(args, s);
    k := j + 1;
    var b :| (if body.Done? then EachComes(P, body.v, 0, env, s, b) else b == body) && Ends(st.frames, b, r);
    if body.Done? {
      var i: nat :| EvalEach(P, i, body.v, 0, env, s) == b;
      EachMost(P, i, i + j, body.v, 0, env, s);
      k := i + j + 1;
    }
    FramedIs(P, k, tag, args, env, st);
    EndsOnce(st.frames, b, r, EvalFramed(P, k, tag, args, env, st));
  }

  /** `*throw` goes to the innermost frame that has its tag or is `all`, with its value. */
  lemma ThrowGoes(P: Primitives, tag: Ptr, v: Ptr, d: nat, st: State, r: Outcome)
    requires Disciplined(P) && 0 < d <= |st.frames| && (st.frames[d - 1] == tag || st.frames[d - 1] == CATCH_ALL)
    requires forall i :: d <= i < |st.frames| ==> st.frames[i] != tag && st.frames[i] != CATCH_ALL
    ensures FnComes(P, Throw, [tag, v], st, r) <==> r == Jump(d, v, Thrown(tag), st)
  {
    assert Catches(st.frames[d - 1], Thrown(tag));
    assert Innermost(st.frames, Thrown(tag)) == d;
    assert CallFn(P, 0, Throw, [tag, v], st) == Jump(d, v, Thrown(tag), st);
  }

  /** Where there is none it is an error. */
  lemma ThrowFails(P: Primitives, tag: Ptr, v: Ptr, st: State, r: Outcome)
    requires Disciplined(P) && tag !in st.frames && CATCH_ALL !in st.frames
    ensures FnComes(P, Throw, [tag, v], st, r) <==> r == Err("no *catch found with this tag", tag, st)
  {
    assert Innermost(st.frames, Thrown(tag)) == 0;
    assert CallFn(P, 0, Throw, [tag, v], st) == Err("no *catch found with this tag", tag, st);
  }

  /** An error goes to the innermost frame that has the tag `errobj` or `all`, with a fresh
      pair of the message and the object, which `errobj` then holds; without such a frame it
      goes to the top level. */
  lemma ErrorGoes(msg: string, x: Ptr, d: nat, st: State)
    requires d <= |st.frames| && (d > 0 ==> st.frames[d - 1] == ERROBJ || st.frames[d - 1] == CATCH_ALL)
    requires forall i :: d <= i < |st.frames| ==> st.frames[i] != ERROBJ && st.frames[i] != CATCH_ALL
    ensures var (s, p) := (st.(globals := st.globals[ERROBJ := x]), |st.mem|);
            Err(msg, x, st) == if d == 0 then Quit(s)
                               else Jump(d, p + 1, Raised, s.(mem := st.mem + [Text(msg), Cons(p, x)]))
  {
    assert d > 0 ==> Catches(st.frames[d - 1], Raised);
    assert Innermost(st.frames, Raised) == d;
    assert st.mem + [Text(msg)] + [Cons(|st.mem|, x)] == st.mem + [Text(msg), Cons(|st.mem|, x)];
  }

  /** The catch for C callers: the C function is run with a frame for the tag.  When it
      finishes, or jumps for a cause that the tag catches, the frames are as they were and the
      value is the one returned or thrown; everything else goes on. */
  lemma CcallMeans(tag: Ptr, body: State -> Outcome, st: State)
    requires forall s: State :: Kept(s.frames, body(s))
    ensures var (b, r) := (body(st.(frames := st.frames + [tag])), CcallCatch(tag, body, st));
            && (b.Done? || (b.Jump? && Catches(tag, b.cause)) ==> r == Done(b.v, b.st.(frames := st.frames)))
            && (!b.Done? && !(b.Jump? && Catches(tag, b.cause)) ==> r == b)
  {
    var s := st.(frames := st.frames + [tag]);
    var b := body(s);
    assert Kept(s.frames, b);
    assert s.frames[|st.frames|] == tag && s.frames[..|st.frames|] == st.frames;
  }

  // ---- Whole forms -----------------------------------------------------------------------

  /** The operator of the form `x` comes to the function `f`, in the state `s`. */
  ghost predicate Operator(P: Primitives, x: Ptr, env: Ptr, st: State, f: Ptr, s: State)
    requires Disciplined(P)
  {
    IsCons(x, st) && IsCons(x, s) && 0 < f < |s.mem| && Comes(P, st.mem[x].car, env, st, Done(f, s))
  }

  lemma OperatorCalled(P: Primitives, x: Ptr, env: Ptr, st: State, f: Ptr, s: State, r: Outcome)
    requires Disciplined(P) && Operator(P, x, env, st, f, s)
    ensures Comes(P, x, env, st, r) <==> CallComes(P, f, x, env, s, r)
  {
    hide Comes, CallComes;
    ListRule(P, x, env, st, r);
    if q :| Comes(P, st.mem[x].car, env, st, q) && if q.Done? then CallComes(P, q.v, x, env, q.st, r) else r == q {
      ComesOnce(P, st.mem[x].car, env, st, q, Done(f, s));
    }
  }

  /** (if test then else), or (if test then): the test comes first; unless it comes to NIL
      the form means `then`, and otherwise `else`, or NIL where there is none. */
  lemma IfMeans(P: Primitives, x: Ptr, env: Ptr, st: State, f: Ptr, s: State, c: Ptr, t: State, r: Outcome)
    requires Disciplined(P) && Operator(P, x, env, st, f, s) && s.mem[f] == MSubr(If)
    requires IsCons(s.mem[x].cdr, s) && Comes(P, s.mem[s.mem[x].cdr].car, env, s, Done(c, t))
    requires var l := s.mem[x].cdr;
             IsCons(l, t) && IsCons(t.mem[l].cdr, t) && (t.mem[t.mem[l].cdr].cdr == 0 || IsCons(t.mem[t.mem[l].cdr].cdr, t))
    ensures var second := t.mem[s.mem[x].cdr].cdr;
            var third := t.mem[second].cdr;
            && (c != 0 ==> (Comes(P, x, env, st, r) <==> Comes(P, t.mem[second].car, env, t, r)))
            && (c == 0 && third != 0 ==> (Comes(P, x, env, st, r) <==> Comes(P, t.mem[third].car, env, t, r)))
            && (c == 0 && third == 0 ==> (Comes(P, x, env, st, r) <==> r == Done(0, t)))
  {
    hide Comes, CallComes, TailComes;
    var l := s.mem[x].cdr;
    OperatorCalled(P, x, env, st, f, s, r);
    MSubrRule(P, f, x, env, s, r);
    IfRule(P, l, env, s, r);
    Items(l, t);
    SelfRule(P, 0, env, t, r);
    assert Then(P, Car(l, s), env, Done(c, t));
    if q :| Then(P, Car(l, s), env, q) && Branches(P, l, q, env, r) {
      ComesOnce(P, s.mem[l].car, env, s, q, Done(c, t));
    }
  }

  /** The second and the third of a list. */
  lemma Items(l: Ptr, st: State)
    requires IsCons(l, st) && IsCons(st.mem[l].cdr, st)
    requires st.mem[st.mem[l].cdr].cdr == 0 || IsCons(st.mem[st.mem[l].cdr].cdr, st)
    ensures var second := st.mem[l].cdr;
            var third := st.mem[second].cdr;
            && Nth(l, 1, st) == Done(st.mem[second].car, st)
            && Nth(l, 2, st) == Done(if third == 0 then 0 else st.mem[third].car, st)
  {
    assert Drop(l, 1, st) == Done(st.mem[l].cdr, st);
    assert Drop(l, 2, st) == Done(st.mem[st.mem[l].cdr].cdr, st);
  }

  /** What is neither a function nor a name cannot be called. */
  lemma NotCallable(P: Primitives, f: Ptr, x: Ptr, env: Ptr, st: State, r: Outcome)
    requires Disciplined(P) && IsCons(x, st)
    requires f == 0 || f >= |st.mem| || st.mem[f].Cons? || st.mem[f].Number? || st.mem[f].Text?
    ensures CallComes(P, f, x, env, st, r) <==> r == Err("bad function", f, st)
  {
    hide Err;
    assert Call(P, 1, f, x, env, st) == Err("bad function", f, st);
  }

  /** (or a . more): a value other than NIL ends it, and otherwise the others follow. */
  lemma OrMeans(P: Primitives, x: Ptr, env: Ptr, st: State, f: Ptr, s: State, v: Ptr, t: State, r: Outcome)
    requires Disciplined(P) && Operator(P, x, env, st, f, s) && s.mem[f] == MSubr(Or)
    requires IsCons(s.mem[x].cdr, s) && s.mem[s.mem[x].cdr].cdr != 0
    requires Comes(P, s.mem[s.mem[x].cdr].car, env, s, Done(v, t))
    ensures v != 0 ==> (Comes(P, x, env, st, r) <==> r == Done(v, t))
    ensures v == 0 ==> (Comes(P, x, env, st, r) <==> TailComes(P, Or, s.mem[s.mem[x].cdr].cdr, env, t, r))
  {
    SequenceMeans(P, x, env, st, f, s, Done(v, t), r);
  }

  /** (and a . more): NIL ends it, and otherwise the others follow. */
  lemma AndMeans(P: Primitives, x: Ptr, env: Ptr, st: State, f: Ptr, s: State, v: Ptr, t: State, r: Outcome)
    requires Disciplined(P) && Operator(P, x, env, st, f, s) && s.mem[f] == MSubr(And)
    requires IsCons(s.mem[x].cdr, s) && s.mem[s.mem[x].cdr].cdr != 0
    requires Comes(P, s.mem[s.mem[x].cdr].car, env, s, Done(v, t))
    ensures v == 0 ==> (Comes(P, x, env, st, r) <==> r == Done(0, t))
    ensures v != 0 ==> (Comes(P, x, env, st, r) <==> TailComes(P, And, s.mem[s.mem[x].cdr].cdr, env, t, r))
  {
    SequenceMeans(P, x, env, st, f, s, Done(v, t), r);
  }

  /** (begin a . more): whatever value the first form has, the others follow. */
  lemma BeginMeans(P: Primitives, x: Ptr, env: Ptr, st: State, f: Ptr, s: State, v: Ptr, t: State, r: Outcome)
    requires Disciplined(P) && Operator(P, x, env, st, f, s) && s.mem[f] == MSubr(Begin)
    requires IsCons(s.mem[x].cdr, s) && s.mem[s.mem[x].cdr].cdr != 0
    requires Comes(P, s.mem[s.mem[x].cdr].car, env, s, Done(v, t))
    ensures Comes(P, x, env, st, r) <==> TailComes(P, Begin, s.mem[s.mem[x].cdr].cdr, env, t, r)
  {
    SequenceMeans(P, x, env, st, f, s, Done(v, t), r);
  }

  lemma SequenceMeans(P: Primitives, x: Ptr, env: Ptr, st: State, f: Ptr, s: State, v: Outcome, r: Outcome)
    requires Disciplined(P) && Operator(P, x, env, st, f, s) && s.mem[f].MSubr? && s.mem[f].tail in {Begin, Or, And}
    requires IsCons(s.mem[x].cdr, s) && s.mem[s.mem[x].cdr].cdr != 0
    requires Comes(P, s.mem[s.mem[x].cdr].car, env, s, v)
    ensures Comes(P, x, env, st, r) <==>
            if Decides(s.mem[f].tail, v) then r == v else TailComes(P, s.mem[f].tail, s.mem[s.mem[x].cdr].cdr, env, v.st, r)
  {
    hide Comes, CallComes, TailComes;
    var l, tail := s.mem[x].cdr, s.mem[f].tail;
    OperatorCalled(P, x, env, st, f, s, r);
    MSubrRule(P, f, x, env, s, r);
    SequenceRule(P, tail, l, env, s, r);
    if q :| Comes(P, s.mem[l].car, env, s, q) && if Decides(tail, q) then r == q else TailComes(P, tail, s.mem[l].cdr, env, q.st, r) {
      ComesOnce(P, s.mem[l].car, env, s, q, v);
    }
  }

  /** (while test . body): NIL for the test ends the loop with NIL; otherwise the body comes
      in turn, and then, unless that ends in an error or a jump, the loop again. */
  lemma WhileMeans(P: Primitives, x: Ptr, env: Ptr, st: State, f: Ptr, s: State, c: Ptr, t: State, r: Outcome)
    requires Disciplined(P) && Operator(P, x, env, st, f, s) && s.mem[f] == FSubr(While)
    requires IsCons(s.mem[x].cdr, s) && Comes(P, s.mem[s.mem[x].cdr].car, env, s, Done(c, t)) && IsCons(s.mem[x].cdr, t)
    ensures c == 0 ==> (Comes(P, x, env, st, r) <==> r == Done(0, t))
    ensures c != 0 ==>
              (Comes(P, x, env, st, r) <==>
               exists b :: EachComes(P, t.mem[s.mem[x].cdr].cdr, 0, env, t, b)
                        && if b.Done? then FormComes(P, While, s.mem[x].cdr, env, b.st, r) else r == b)
  {
    hide Comes, CallComes, FormComes, EachComes;
    var l := s.mem[x].cdr;
    OperatorCalled(P, x, env, st, f, s, r);
    FSubrRule(P, f, x, env, s, r);
    WhileRule(P, l, env, s, r);
    assert Then(P, Car(l, s), env, Done(c, t));
    if q :| Then(P, Car(l, s), env, q) && (!q.Done? ==> r == q) && (q.Done? && q.v == 0 ==> r == Done(0, q.st))
            && (q.Done? && q.v != 0 ==> Repeats(P, l, q.st, env, r)) {
      ComesOnce(P, s.mem[l].car, env, s, q, Done(c, t));
    }
  }

  /** A function of two arguments, written in C, gets the value of the first form and then that
      of the second. */
  lemma CallOfTwo(P: Primitives, x: Ptr, env: Ptr, st: State, f: Ptr, s: State, a: Ptr, t: State, b: Ptr, u: State, r: Outcome)
    requires Disciplined(P) && Operator(P, x, env, st, f, s) && s.mem[f].Subr? && s.mem[f].arity == Exactly(2)
    requires IsCons(s.mem[x].cdr, s) && Comes(P, s.mem[s.mem[x].cdr].car, env, s, Done(a, t))
    requires IsCons(s.mem[x].cdr, t) && IsCons(t.mem[s.mem[x].cdr].cdr, t)
    requires Comes(P, t.mem[t.mem[s.mem[x].cdr].cdr].car, env, t, Done(b, u))
    ensures Comes(P, x, env, st, r) <==> FnComes(P, s.mem[f].fn, [a, b], u, r)
  {
    hide Comes, CallComes, SomeComes, FnComes;
    var l := s.mem[x].cdr;
    OperatorCalled(P, x, env, st, f, s, r);
    SubrRule(P, f, x, env, s, r);
    TwoValues(P, l, env, s, a, t, b, u);
    if q :| SomeComes(P, 2, l, env, s, q) && if q.Values? then FnComes(P, s.mem[f].fn, q.vs, q.st, r) else r == q.o {
      SomeOnce(P, 2, l, env, s, q, Values([a, b], t.mem[l].cdr, u));
    }
  }

  /** A C function other than the macros and `*throw` comes to what it comes to. */
  lemma PrimitiveComes(P: Primitives, id: nat, args: seq<Ptr>, st: State, r: Outcome)
    requires Disciplined(P)
    ensures FnComes(P, Other(id), args, st, r) <==> r == P(id, args, st) && !r.Timeout?
  {
    assert CallFn(P, 0, Other(id), args, st) == P(id, args, st);
  }

  lemma TwoValues(P: Primitives, l: Ptr, env: Ptr, s: State, a: Ptr, t: State, b: Ptr, u: State)
    requires Disciplined(P) && IsCons(l, s) && Comes(P, s.mem[l].car, env, s, Done(a, t))
    requires IsCons(l, t) && IsCons(t.mem[l].cdr, t) && Comes(P, t.mem[t.mem[l].cdr].car, env, t, Done(b, u))
    ensures SomeComes(P, 2, l, env, s, Values([a, b], t.mem[l].cdr, u))
  {
    hide Comes, SomeComes;
    var m := t.mem[l].cdr;
    assert Then(P, Car(m, t), env, Done(b, u));
    SomeRule(P, 0, m, env, t, Values([b], m, u));
    assert Then(P, Car(l, s), env, Done(a, t));
    assert [a] + [b] == [a, b];
    assert MoreValues(P, 1, Done(a, t), l, env, Values([a, b], m, u));
    SomeRule(P, 1, l, env, s, Values([a, b], m, u));
  }

  lemma SomeOnce(P: Primitives, n: nat, l: Ptr, env: Ptr, st: State, a: Values, b: Values)
    requires Disciplined(P) && SomeComes(P, n, l, env, st, a) && SomeComes(P, n, l, env, st, b)
    ensures a == b
  {
    hide EvalSome;
    var j: nat :| EvalSome(P, j, n, l, env, st) == a;
    var k: nat :| EvalSome(P, k, n, l, env, st) == b;
    SomeMost(P, j, j + k, n, l, env, st);
    SomeMost(P, k, j + k, n, l, env, st);
  }


  /** (*catch tag (*throw tag' value)): where the two tags come to the same, the form comes to
      the value, with the frames there were before. */
  lemma CatchThrow(P: Primitives, x: Ptr, env: Ptr, st: State, f: Ptr, s: State, tag: Ptr, t: State,
                   y: Ptr, g: Ptr, u: State, u2: State, v: Ptr, w: State, r: Outcome)
    requires Disciplined(P) && Operator(P, x, env, st, f, s) && s.mem[f] == FSubr(Catch)
    requires IsCons(s.mem[x].cdr, s) && Comes(P, s.mem[s.mem[x].cdr].car, env, s, Done(tag, t))
    requires IsCons(s.mem[x].cdr, t) && IsCons(t.mem[s.mem[x].cdr].cdr, t) && t.mem[t.mem[s.mem[x].cdr].cdr].car == y
    requires Operator(P, y, env, t.(frames := t.frames + [tag]), g, u) && u.mem[g] == Subr(Exactly(2), Throw)
    requires IsCons(u.mem[y].cdr, u) && Comes(P, u.mem[u.mem[y].cdr].car, env, u, Done(tag, u2))
    requires IsCons(u.mem[y].cdr, u2) && IsCons(u2.mem[u.mem[y].cdr].cdr, u2)
    requires Comes(P, u2.mem[u2.mem[u.mem[y].cdr].cdr].car, env, u2, Done(v, w))
    ensures t.frames == st.frames && (Comes(P, x, env, st, r) <==> r == Done(v, w.(frames := st.frames)))
  {
    hide Eval, CallComes, FormComes, EachComes, FnComes, Innermost;
    var l, frames := s.mem[x].cdr, st.frames + [tag];
    var body, inner := t.mem[l].cdr, t.(frames := t.frames + [tag]);
    OperatorCalled(P, x, env, st, f, s, r);
    FSubrRule(P, f, x, env, s, r);
    CatchRule(P, l, env, s, r);
    var jump := Jump(|frames|, v, Thrown(tag), w);
    CallOfTwo(P, y, env, inner, g, u, tag, u2, v, w, jump);
    ThrowGoes(P, tag, v, |frames|, w, jump);
    JumpEnds(P, body, 0, y, env, inner, jump);
    assert Then(P, Car(l, s), env, Done(tag, t));
    var done := Done(v, w.(frames := st.frames));
    assert Ends(t.frames, jump, done);
    if r == done {
      assert Catching(P, tag, l, env, t, r);
    }
    if q :| Then(P, Car(l, s), env, q) && if q.Done? then Catching(P, q.v, l, env, q.st, r) else r == q {
      ComesOnce(P, s.mem[l].car, env, s, q, Done(tag, t));
      var b :| EachComes(P, body, 0, env, inner, b) && Ends(t.frames, b, r);
      JumpEnds(P, body, 0, y, env, inner, b);
    }
  }

  /** A form of a body that does not come to a value ends it. */
  lemma JumpEnds(P: Primitives, l: Ptr, v: Ptr, y: Ptr, env: Ptr, st: State, b: Outcome)
    requires Disciplined(P) && IsCons(l, st) && st.mem[l].car == y
    ensures !b.Done? && Comes(P, y, env, st, b) ==> EachComes(P, l, v, env, st, b)
    ensures forall j :: Comes(P, y, env, st, j) && !j.Done? && EachComes(P, l, v, env, st, b) ==> b == j
  {
    hide Comes, EachComes;
    EachRule(P, l, v, env, st, b);
    if !b.Done? && Comes(P, y, env, st, b) {
      assert Then(P, Car(l, st), env, b) && Follows(P, l, b, env, b);
    }
    forall j | Comes(P, y, env, st, j) && !j.Done? && EachComes(P, l, v, env, st, b)
      ensures b == j
    {
      var a :| Then(P, Car(l, st), env, a) && Follows(P, l, a, env, b);
      ComesOnce(P, y, env, st, a, j);
    }
  }

  // ---- Faults ----------------------------------------------------------------------------

  /** The search for a variable stops with an error at a frame with too few actuals, at one
      that is no list, and at an environment that is none, which the error carries whole. */
  lemma LookupFaults(k: nat, x: Ptr, fl: Ptr, al: Ptr, frame: Ptr, env: Ptr, all: Ptr, st: State)
    requires k > 0
    ensures IsCons(fl, st) && !IsCons(al, st) ==> LookupFrame(k, x, fl, al, frame, st) == Err("too few arguments", frame, st)
    ensures env != 0 && !IsCons(env, st) ==> Lookup(k, x, env, st, all) == Err("damaged env", all, st)
    ensures IsCons(env, st) && !IsCons(st.mem[env].car, st) ==> Lookup(k, x, env, st, all) == Err("damaged frame", st.mem[env].car, st)
  {
    hide Err;
  }

  /** Only a symbol can be assigned or defined. */
  lemma NamesOnly(x: Ptr, v: Ptr, env: Ptr, st: State, r: Outcome)
    requires !IsSymbol(x, st)
    ensures Assigns(x, v, env, st, r) <==> r == Err("wta(non-symbol) to setvar", x, st)
  {
    hide Err;
    assert SetVar(0, x, v, env, st) == Err("wta(non-symbol) to setvar", x, st);
  }

  /** Taking apart what is no list is an error. */
  lemma NotAList(x: Ptr, st: State)
    ensures Car(0, st) == Done(0, st) && Cdr(0, st) == Done(0, st)
    ensures x != 0 && !IsCons(x, st) ==> Car(x, st) == Err("wta to car", x, st) && Cdr(x, st) == Err("wta to cdr", x, st)
    ensures IsCons(x, st) ==> Car(x, st) == Done(st.mem[x].car, st) && Cdr(x, st) == Done(st.mem[x].cdr, st)
  {
    hide Err;
  }

  /** An argument list that does not end in NIL is an error. */
  lemma BadArguments(P: Primitives, l: Ptr, env: Ptr, st: State, r: Outcome)
    requires Disciplined(P) && !IsCons(l, st)
    ensures ArgsComes(P, l, env, st, r) <==> r == if l == 0 then Done(0, st) else Err("bad syntax argument list", l, st)
  {
    hide Err;
    assert EvalArgs(P, 1, l, env, st) == if l == 0 then Done(0, st) else Err("bad syntax argument list", l, st);
  }
}
