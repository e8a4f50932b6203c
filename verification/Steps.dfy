/** The step budget of the evaluator only bounds it: an evaluation that comes to an
    outcome within its budget comes to the same outcome within any larger one. */
module Steps {
  import opened Evaluator

  /** `b` is `a`, unless `a` ran out of steps. */
  predicate Settled(a: Outcome, b: Outcome) {
    a.Timeout? || a == b
  }

  predicate SettledValues(a: Values, b: Values) {
    a == NoValues(Timeout) || a == b
  }

  predicate SettledTail(a: Tail, b: Tail) {
    a == Stop(Timeout) || a == b
  }

  lemma {:induction false} FrameMore(k: nat, x: Ptr, fl: Ptr, al: Ptr, frame: Ptr, st: State)
    ensures Settled(LookupFrame(k, x, fl, al, frame, st), LookupFrame(k + 1, x, fl, al, frame, st))
  {
    if k > 0 && IsCons(fl, st) && IsCons(al, st) {
      FrameMore(k - 1, x, st.mem[fl].cdr, st.mem[al].cdr, frame, st);
    }
  }

  lemma {:induction false} LookupMore(k: nat, x: Ptr, env: Ptr, st: State, all: Ptr := env)
    ensures Settled(Lookup(k, x, env, st, all), Lookup(k + 1, x, env, st, all))
  {
    if k > 0 && IsCons(env, st) && IsCons(st.mem[env].car, st) {
      var frame := st.mem[env].car;
      FrameMore(k - 1, x, st.mem[frame].car, st.mem[frame].cdr, frame, st);
      LookupMore(k - 1, x, st.mem[env].cdr, st, all);
    }
  }

  lemma VariableMore(k: nat, x: Ptr, env: Ptr, st: State)
    ensures Settled(Variable(k, x, env, st), Variable(k + 1, x, env, st))
  {
    hide Lookup;
    LookupMore(k, x, env, st);
  }

  lemma SetVarMore(k: nat, x: Ptr, v: Ptr, env: Ptr, st: State)
    ensures Settled(SetVar(k, x, v, env, st), SetVar(k + 1, x, v, env, st))
    ensures Settled(DefineVar(k, x, v, env, st), DefineVar(k + 1, x, v, env, st))
  {
    hide Lookup;
    LookupMore(k, x, env, st);
  }

  lemma {:induction false} SyntaxMore(k: nat, args: Ptr, st: State)
    ensures Settled(SyntaxDefine(k, args, st), SyntaxDefine(k + 1, args, st))
  {
    if k > 0 {
      var x := Car(args, st);
      if x.Done? && !IsSymbol(x.v, st) {
        var name, formals, body := Car(x.v, st), Cdr(x.v, st), Cdr(args, st);
        if formals.Done? && body.Done? && name.Done? {
          var p := |st.mem|;
          SyntaxMore(k - 1, p + 3, st.(mem := st.mem
            + [Cons(formals.v, body.v), Cons(LAMBDA, p), Cons(p + 1, 0), Cons(name.v, p + 2)]));
        }
      }
    }
  }

  lemma {:induction false} SplitMore(k: nat, p: Ptr, fl: Ptr, al: Ptr, st: State)
    ensures SettledValues(SplitBindings(k, p, fl, al, st), SplitBindings(k + 1, p, fl, al, st))
  {
    hide Nth;
    if k > 0 && p != 0 {
      var b, next, n := Car(p, st), Cdr(p, st), |st.mem|;
      if b.Done? && next.Done? {
        if IsSymbol(b.v, st) {
          SplitMore(k - 1, next.v, n, n + 1, st.(mem := st.mem + [Cons(b.v, fl), Cons(0, al)]));
        } else {
          var name, init := Car(b.v, st), Nth(b.v, 1, st);
          if name.Done? && init.Done? {
            SplitMore(k - 1, next.v, n, n + 1, st.(mem := st.mem + [Cons(name.v, fl), Cons(init.v, al)]));
          }
        }
      }
    }
  }

  lemma {:induction false} ReverseMore(k: nat, l: Ptr, onto: Ptr, st: State)
    ensures Settled(Reverse(k, l, onto, st), Reverse(k + 1, l, onto, st))
  {
    if k > 0 && l != 0 {
      var x, next := Car(l, st), Cdr(l, st);
      if x.Done? && next.Done? {
        ReverseMore(k - 1, next.v, |st.mem|, Alloc(Cons(x.v, onto), st));
      }
    }
  }

  lemma {:induction false} LetrecMore(k: nat, l: Ptr, letb: Ptr, setb: Ptr, st: State)
    ensures SettledValues(SplitLetrec(k, l, letb, setb, st), SplitLetrec(k + 1, l, letb, setb, st))
  {
    hide Nth;
    if k > 0 && l != 0 {
      var b, next := Car(l, st), Cdr(l, st);
      if b.Done? && next.Done? {
        var name, init, p := Car(b.v, st), Nth(b.v, 1, st), |st.mem|;
        if name.Done? && init.Done? {
          LetrecMore(k - 1, next.v, p + 1, p + 5, st.(mem := st.mem
            + [Cons(name.v, 0), Cons(p, letb),
               Cons(init.v, 0), Cons(name.v, p + 2), Cons(SET, p + 3), Cons(p + 4, setb)]));
        }
      }
    }
  }

  lemma FinishMore(k: nat, form: Ptr, body: Ptr, fl: Ptr, al: Ptr, st: State)
    ensures Settled(FinishLet(k, form, body, fl, al, st), FinishLet(k + 1, form, body, fl, al, st))
  {
    hide Reverse, Rewrite;
    var more, one := Cdr(body, st), Car(body, st);
    if more.Done? && one.Done? {
      var b := if more.v == 0 then one else NewCons(BEGIN, body, st);
      ReverseMore(k, al, 0, b.st);
      var inits := Reverse(k, al, 0, b.st);
      if inits.Done? {
        ReverseMore(k, fl, 0, inits.st);
      }
    }
  }

  lemma FnMore(P: Primitives, k: nat, fn: Fn, args: seq<Ptr>, st: State)
    requires Disciplined(P)
    ensures Settled(CallFn(P, k, fn, args, st), CallFn(P, k + 1, fn, args, st))
  {
    hide Nth, Drop, SplitBindings, SplitLetrec, FinishLet, Rewrite, ExpandLetStar;
    var form := Arg(args, 0);
    var bindings, body := Nth(form, 1, st), Drop(form, 2, st);
    if bindings.Done? && body.Done? {
      SplitMore(k, bindings.v, 0, 0, st);
      LetrecMore(k, bindings.v, 0, body.v, st);
      var lists := SplitBindings(k, bindings.v, 0, 0, st);
      if lists.Values? {
        FinishMore(k, form, body.v, lists.vs[0], lists.vs[1], lists.st);
      }
    }
  }

  // ---- The evaluator proper ---------------------------------------------------------------

  lemma {:induction false} EvalMore(P: Primitives, k: nat, x: Ptr, env: Ptr, st: State)
    requires Disciplined(P)
    ensures Settled(Eval(P, k, x, env, st), Eval(P, k + 1, x, env, st))
    decreases k
  {
    hide Variable, Call;
    if k > 0 && IsSymbol(x, st) {
      VariableMore(k - 1, x, env, st);
    } else if k > 0 && IsCons(x, st) {
      var head := st.mem[x].car;
      VariableMore(k - 1, head, env, st);
      EvalMore(P, k - 1, head, env, st);
      var f := if IsSymbol(head, st) then Variable(k - 1, head, env, st)
               else if IsCons(head, st) then Eval(P, k - 1, head, env, st)
               else Done(head, st);
      if f.Done? {
        CallMore(P, k - 1, f.v, x, env, f.st);
      }
    }
  }

  lemma {:induction false} CallMore(P: Primitives, k: nat, f: Ptr, x: Ptr, env: Ptr, st: State)
    requires Disciplined(P)
    ensures Settled(Call(P, k, f, x, env, st), Call(P, k + 1, f, x, env, st))
    decreases k
  {
    hide Eval, EvalSome, EvalArgs, EvalFold, EvalForm, EvalTail, CallFn, Enter, Err;
    if k > 0 && IsCons(x, st) && 0 < f < |st.mem| {
      var l := st.mem[x].cdr;
      match st.mem[f]
      case Subr(arity, fn) =>
        SubrMore(P, k, f, x, env, st);
      case FSubr(form) =>
        FormMore(P, k - 1, form, l, env, st);
      case MSubr(tail) =>
        TailMore(P, k - 1, tail, l, env, st);
        var t := EvalTail(P, k - 1, tail, l, env, st);
        if t.Again? {
          EvalMore(P, k - 1, t.x, t.env, t.st);
        }
      case Closure(cenv, code) =>
        ClosureMore(P, k, f, x, env, st);
      case Symbol =>
        var p := |st.mem|;
        var s := st.(mem := st.mem + [Cons(x, 0), Cons(QUOTE, p), Cons(p + 1, 0), Cons(f, p + 2)]);
        EvalMore(P, k - 1, p + 3, 0, s);
        var r := Eval(P, k - 1, p + 3, 0, s);
        if r.Done? {
          EvalMore(P, k - 1, r.v, env, r.st);
        }
      case _ =>
    }
  }

  lemma {:induction false} SubrMore(P: Primitives, k: nat, f: Ptr, x: Ptr, env: Ptr, st: State)
    requires Disciplined(P) && k > 0 && IsCons(x, st) && 0 < f < |st.mem| && st.mem[f].Subr?
    ensures Settled(Call(P, k, f, x, env, st), Call(P, k + 1, f, x, env, st))
    decreases k - 1, 3
  {
    hide Eval, EvalSome, EvalArgs, EvalFold, CallFn;
    var l, fn := st.mem[x].cdr, st.mem[f].fn;
    match st.mem[f].arity
    case Exactly(n) =>
      SomeMore(P, k - 1, n, l, env, st);
      var a := EvalSome(P, k - 1, n, l, env, st);
      if a.Values? {
        FnMore(P, k - 1, fn, a.vs, a.st);
      }
    case TwoOrMore =>
      SomeMore(P, k - 1, 2, l, env, st);
      var a := EvalSome(P, k - 1, 2, l, env, st);
      if a.Values? {
        FoldMore(P, k - 1, fn, a.vs[0], a.vs[1], a.rest, env, a.st);
      }
    case AnyNumber =>
      ArgsMore(P, k - 1, l, env, st);
      var a := EvalArgs(P, k - 1, l, env, st);
      if a.Done? {
        FnMore(P, k - 1, fn, [a.v], a.st);
      }
  }

  lemma {:induction false} ClosureMore(P: Primitives, k: nat, f: Ptr, x: Ptr, env: Ptr, st: State)
    requires Disciplined(P) && k > 0 && IsCons(x, st) && 0 < f < |st.mem| && st.mem[f].Closure?
    ensures Settled(Call(P, k, f, x, env, st), Call(P, k + 1, f, x, env, st))
    decreases k - 1, 3
  {
    hide Eval, EvalSome, EvalArgs, CallFn, Enter, Err;
    var l, cenv, code := st.mem[x].cdr, st.mem[f].env, st.mem[f].code;
    if 0 < code < |st.mem| {
      ArgsMore(P, k - 1, l, env, st);
      var a := EvalArgs(P, k - 1, l, env, st);
      if st.mem[code].Cons? && a.Done? {
        EnterMore(P, k - 1, a.v, cenv, code, a.st);
      } else if st.mem[code].Subr? && st.mem[code].arity.AnyNumber? && a.Done? {
        FnMore(P, k - 1, st.mem[code].fn, [|a.st.mem|], NewCons(cenv, a.v, a.st).st);
      } else if st.mem[code].Subr? && st.mem[code].arity.Exactly? && st.mem[code].arity.n > 0 {
        SomeMore(P, k - 1, st.mem[code].arity.n - 1, l, env, st);
        var b := EvalSome(P, k - 1, st.mem[code].arity.n - 1, l, env, st);
        if b.Values? {
          FnMore(P, k - 1, st.mem[code].fn, [cenv] + b.vs, b.st);
        }
      }
    }
  }

  lemma {:induction false} EnterMore(P: Primitives, k: nat, args: Ptr, cenv: Ptr, code: Ptr, st: State)
    requires Disciplined(P)
    ensures Settled(Enter(P, k, args, cenv, code, st), Enter(P, k + 1, args, cenv, code, st))
    decreases k, 2
  {
    hide Eval, Extend, Car, Cdr;
    var formals := Car(code, st);
    if k > 0 && formals.Done? {
      var e := Extend(args, formals.v, cenv, st);
      var body := Cdr(code, e.st);
      if body.Done? {
        EvalMore(P, k - 1, body.v, e.v, e.st);
      }
    }
  }

  lemma {:induction false} SomeMore(P: Primitives, k: nat, n: nat, l: Ptr, env: Ptr, st: State)
    requires Disciplined(P)
    ensures SettledValues(EvalSome(P, k, n, l, env, st), EvalSome(P, k + 1, n, l, env, st))
    decreases k, 2
  {
    hide Eval, Car, Cdr;
    var x := Car(l, st);
    if k > 0 && n > 0 && x.Done? {
      EvalMore(P, k - 1, x.v, env, st);
      var a := Eval(P, k - 1, x.v, env, st);
      if n > 1 && a.Done? {
        var next := Cdr(l, a.st);
        if next.Done? {
          SomeMore(P, k - 1, n - 1, next.v, env, a.st);
        }
      }
    }
  }

  lemma {:induction false} FoldMore(P: Primitives, k: nat, fn: Fn, a: Ptr, b: Ptr, l: Ptr, env: Ptr, st: State)
    requires Disciplined(P)
    ensures Settled(EvalFold(P, k, fn, a, b, l, env, st), EvalFold(P, k + 1, fn, a, b, l, env, st))
    decreases k, 2
  {
    hide Eval, CallFn, Cdr;
    if k > 0 {
      FnMore(P, k - 1, fn, [a, b], st);
      var acc := CallFn(P, k - 1, fn, [a, b], st);
      if acc.Done? {
        var next := Cdr(l, acc.st);
        if next.Done? && IsCons(next.v, acc.st) {
          EvalMore(P, k - 1, acc.st.mem[next.v].car, env, acc.st);
          var v := Eval(P, k - 1, acc.st.mem[next.v].car, env, acc.st);
          if v.Done? {
            FoldMore(P, k - 1, fn, acc.v, v.v, next.v, env, v.st);
          }
        }
      }
    }
  }

  lemma {:induction false} ArgsMore(P: Primitives, k: nat, l: Ptr, env: Ptr, st: State)
    requires Disciplined(P)
    ensures Settled(EvalArgs(P, k, l, env, st), EvalArgs(P, k + 1, l, env, st))
    decreases k, 2
  {
    hide Eval, MoreArgs, Cdr, Err;
    if k > 0 && IsCons(l, st) {
      EvalMore(P, k - 1, st.mem[l].car, env, st);
      var a := Eval(P, k - 1, st.mem[l].car, env, st);
      if a.Done? {
        var first := NewCons(a.v, 0, a.st);
        var next := Cdr(l, first.st);
        if next.Done? {
          MoreMore(P, k - 1, first.v, next.v, l, env, first.st);
        }
      }
    }
  }

  lemma {:induction false} MoreMore(P: Primitives, k: nat, last: Ptr, l: Ptr, all: Ptr, env: Ptr, st: State)
    requires Disciplined(P)
    ensures Settled(MoreArgs(P, k, last, l, all, env, st), MoreArgs(P, k + 1, last, l, all, env, st))
    decreases k, 2
  {
    hide Eval, Cdr, Err;
    if k > 0 && IsCons(l, st) {
      EvalMore(P, k - 1, st.mem[l].car, env, st);
      var a := Eval(P, k - 1, st.mem[l].car, env, st);
      if a.Done? {
        var cell := NewCons(a.v, 0, a.st);
        if IsCons(last, cell.st) {
          var s := SetCdr(last, cell.v, cell.st);
          var next := Cdr(l, s);
          if next.Done? {
            MoreMore(P, k - 1, cell.v, next.v, all, env, s);
          }
        }
      }
    }
  }

  lemma {:induction false} EachMore(P: Primitives, k: nat, l: Ptr, v: Ptr, env: Ptr, st: State)
    requires Disciplined(P)
    ensures Settled(EvalEach(P, k, l, v, env, st), EvalEach(P, k + 1, l, v, env, st))
    decreases k, 2
  {
    hide Eval, Car, Cdr;
    var x := Car(l, st);
    if k > 0 && l != 0 && x.Done? {
      EvalMore(P, k - 1, x.v, env, st);
      var a := Eval(P, k - 1, x.v, env, st);
      if a.Done? {
        var next := Cdr(l, a.st);
        if next.Done? {
          EachMore(P, k - 1, next.v, a.v, env, a.st);
        }
      }
    }
  }

  lemma {:induction false} FormMore(P: Primitives, k: nat, form: FormCode, args: Ptr, env: Ptr, st: State)
    requires Disciplined(P)
    ensures Settled(EvalForm(P, k, form, args, env, st), EvalForm(P, k + 1, form, args, env, st))
    decreases k, 2
  {
    hide Eval, EvalDefine, EvalCatch, EvalSome, EvalEach, SetVar, DefineVar, Car, Cdr, Nth, MakeClosure;
    if k > 0 {
      match form
      case Define => DefineMore(P, k - 1, args, env, st);
      case Catch => CatchMore(P, k - 1, args, env, st);
      case While =>
        var x := Car(args, st);
        if x.Done? {
          EvalMore(P, k - 1, x.v, env, st);
          var c := Eval(P, k - 1, x.v, env, st);
          if c.Done? && c.v != 0 {
            var body := Cdr(args, c.st);
            if body.Done? {
              EachMore(P, k - 1, body.v, 0, env, c.st);
              var b := EvalEach(P, k - 1, body.v, 0, env, c.st);
              if b.Done? {
                FormMore(P, k - 1, While, args, env, b.st);
              }
            }
          }
        }
      case Set =>
        SomeMore(P, k - 1, 2, args, env, st);
        var a := EvalSome(P, k - 1, 2, args, env, st);
        if a.Values? {
          SetVarMore(k - 1, a.vs[0], a.vs[1], env, a.st);
        }
      case SetQ =>
        var x := Nth(args, 1, st);
        if x.Done? {
          EvalMore(P, k - 1, x.v, env, st);
          var v := Eval(P, k - 1, x.v, env, st);
          if v.Done? {
            var name := Car(args, v.st);
            if name.Done? {
              SetVarMore(k - 1, name.v, v.v, env, v.st);
            }
          }
        }
      case _ =>
    }
  }

  lemma {:induction false} DefineMore(P: Primitives, k: nat, args: Ptr, env: Ptr, st: State)
    requires Disciplined(P)
    ensures Settled(EvalDefine(P, k, args, env, st), EvalDefine(P, k + 1, args, env, st))
    decreases k, 2
  {
    hide Eval, SyntaxDefine, DefineVar, Car, Nth, Err;
    if k > 0 {
      SyntaxMore(k - 1, args, st);
      var d := SyntaxDefine(k - 1, args, st);
      if d.Done? {
        var name, x := Car(d.v, d.st), Nth(d.v, 1, d.st);
        if name.Done? && x.Done? {
          EvalMore(P, k - 1, x.v, env, d.st);
          var v := Eval(P, k - 1, x.v, env, d.st);
          if v.Done? {
            SetVarMore(k - 1, name.v, v.v, env, v.st);
          }
        }
      }
    }
  }

  lemma {:induction false} CatchMore(P: Primitives, k: nat, args: Ptr, env: Ptr, st: State)
    requires Disciplined(P)
    ensures Settled(EvalCatch(P, k, args, env, st), EvalCatch(P, k + 1, args, env, st))
    decreases k, 2
  {
    hide Eval, EvalFramed, Car;
    var x := Car(args, st);
    if k > 0 && x.Done? {
      EvalMore(P, k - 1, x.v, env, st);
      var tag := Eval(P, k - 1, x.v, env, st);
      if tag.Done? {
        FramedMore(P, k - 1, tag.v, args, env, tag.st);
      }
    }
  }

  lemma {:induction false} FramedMore(P: Primitives, k: nat, tag: Ptr, args: Ptr, env: Ptr, st: State)
    requires Disciplined(P)
    ensures Settled(EvalFramed(P, k, tag, args, env, st), EvalFramed(P, k + 1, tag, args, env, st))
    decreases k, 2
  {
    hide EvalEach, Cdr;
    var s := st.(frames := st.frames + [tag]);
    var body := Cdr(args, s);
    if k > 0 && body.Done? {
      EachMore(P, k - 1, body.v, 0, env, s);
    }
  }

  lemma {:induction false} TailMore(P: Primitives, k: nat, tail: TailCode, l: Ptr, env: Ptr, st: State)
    requires Disciplined(P)
    ensures SettledTail(EvalTail(P, k, tail, l, env, st), EvalTail(P, k + 1, tail, l, env, st))
    decreases k, 2
  {
    hide Eval, EvalArgs, EvalSequence, Car, Nth, Extend;
    if k > 0 {
      SequenceMore(P, k - 1, tail, l, env, st);
      var x := Car(l, st);
      if tail.If? && x.Done? {
        EvalMore(P, k - 1, x.v, env, st);
      }
      var inits := Nth(l, 1, st);
      if tail.LetInternal? && inits.Done? {
        ArgsMore(P, k - 1, inits.v, env, st);
      }
    }
  }

  lemma {:induction false} SequenceMore(P: Primitives, k: nat, tail: TailCode, l: Ptr, env: Ptr, st: State)
    requires Disciplined(P)
    ensures SettledTail(EvalSequence(P, k, tail, l, env, st), EvalSequence(P, k + 1, tail, l, env, st))
    decreases k, 2
  {
    hide Eval, Car, Cdr;
    var next, x := Cdr(l, st), Car(l, st);
    if k > 0 && next.Done? && x.Done? && next.v != 0 {
      EvalMore(P, k - 1, x.v, env, st);
      var v := Eval(P, k - 1, x.v, env, st);
      if v.Done? {
        SequenceMore(P, k - 1, tail, next.v, env, v.st);
      }
    }
  }

  /** A program has at most one outcome, however many steps it is given. */
  lemma {:induction false} OneOutcome(P: Primitives, j: nat, k: nat, x: Ptr, env: Ptr, st: State)
    requires Disciplined(P) && j <= k && !Eval(P, j, x, env, st).Timeout?
    ensures Eval(P, k, x, env, st) == Eval(P, j, x, env, st)
    decreases k - j
  {
    hide Eval;
    if j < k {
      EvalMore(P, j, x, env, st);
      OneOutcome(P, j + 1, k, x, env, st);
    }
  }
}
