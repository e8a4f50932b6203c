/** The evaluator as the source runs it: memory, global values and the chain of catch
    frames are updated in place, and the loops are loops.  Each method does what the
    function of Evaluator it names does, in the same number of steps. */
module Interpreter {
  import opened Evaluator

  /** How a call returns to its C caller; the state is in the machine. */
  datatype Result =
    | Value(v: Ptr)
    | Longjmp(frame: nat, v: Ptr, cause: Cause)
    | ToTopLevel
    | OutOfSteps

  /** `GoOn` is a tail call: a new form and environment, and the steps left for it. */
  datatype Next = GoOn(x: Ptr, env: Ptr, steps: nat) | Return(r: Result)

  /** Once a CDR fails, so do all that follow. */
  lemma {:induction false} DropFails(p: Ptr, j: nat, i: nat, st: State)
    requires j <= i && !Drop(p, j, st).Done?
    ensures Drop(p, i, st) == Drop(p, j, st)
  {
    if j < i {
      DropFails(p, j, i - 1, st);
    }
  }

  /** `goal` is the values `vs` followed by what `left` comes to; `rest` counts when nothing
      is left. */
  ghost predicate SomeLeft(goal: Values, vs: seq<Ptr>, rest: Ptr, m: nat, left: Values) {
    match left
    case Values(ws, q, s) => goal == Values(vs + ws, if m > 0 then q else rest, s)
    case NoValues(out) => goal == NoValues(out)
  }

  lemma OneLess(goal: Values, vs: seq<Ptr>, rest: Ptr, m: nat, v: Ptr, more: Values)
    requires m > 1 && SomeLeft(goal, vs, rest, m, if more.Values? then Values([v] + more.vs, more.rest, more.st) else more)
    ensures SomeLeft(goal, vs + [v], rest, m - 1, more)
  {
    if more.Values? {
      assert vs + ([v] + more.vs) == vs + [v] + more.vs;
    }
  }

  lemma NoneLeft(goal: Values, vs: seq<Ptr>, rest: Ptr, l: Ptr, st: State)
    requires SomeLeft(goal, vs, rest, 0, Values([], l, st))
    ensures goal == Values(vs, rest, st)
  {
    assert vs + [] == vs;
  }

  lemma LastOne(goal: Values, vs: seq<Ptr>, rest: Ptr, v: Ptr, at: Ptr, st: State)
    requires SomeLeft(goal, vs, rest, 1, Values([v], at, st))
    ensures goal == Values(vs + [v], at, st)
  {
  }

  lemma StoppedShort(goal: Values, vs: seq<Ptr>, rest: Ptr, m: nat, left: Values)
    requires SomeLeft(goal, vs, rest, m, left)
    ensures left.NoValues? ==> goal == left
  {
  }

  lemma NothingYet(goal: Values, rest: Ptr, n: nat)
    requires n == 0 ==> goal.Values? && goal.vs == [] && goal.rest == rest
    ensures SomeLeft(goal, [], rest, n, goal)
  {
    if goal.Values? {
      assert [] + goal.vs == goal.vs;
    }
  }

  class Machine {
    var mem: seq<Obj>
    var globals: map<Ptr, Ptr>
    var frames: seq<Ptr>

    function Now(): State
      reads this
    {
      State(mem, globals, frames)
    }

    /** The machine is where the outcome `o` says, and `r` is what it returns. */
    predicate Is(r: Result, o: Outcome)
      reads this
    {
      match o
      case Done(v, s) => r == Value(v) && Now() == s
      case Jump(d, v, cause, s) => r == Longjmp(d, v, cause) && Now() == s
      case Quit(s) => r == ToTopLevel && Now() == s
      case Timeout => r == OutOfSteps
    }

    predicate IsNext(n: Next, t: Tail)
      reads this
    {
      match t
      case Again(x, env, s) => n.GoOn? && n.x == x && n.env == env && Now() == s
      case Stop(o) => n.Return? && Is(n.r, o)
    }

    /** Take over the state of an outcome. */
    method Install(o: Outcome) returns (r: Result)
      modifies this
      ensures Is(r, o)
    {
      match o
      case Done(v, s) =>
        mem, globals, frames := s.mem, s.globals, s.frames;
        r := Value(v);
      case Jump(d, v, cause, s) =>
        mem, globals, frames := s.mem, s.globals, s.frames;
        r := Longjmp(d, v, cause);
      case Quit(s) =>
        mem, globals, frames := s.mem, s.globals, s.frames;
        r := ToTopLevel;
      case Timeout =>
        r := OutOfSteps;
    }

    /** The walk along the catch frames in `err` and `siod_lthrow`. */
    method FindFrame(cause: Cause) returns (d: nat)
      ensures d == Innermost(frames, cause)
    {
      d := |frames|;
      assert frames[..d] == frames;
      while d > 0 && !Catches(frames[d - 1], cause)
        invariant d <= |frames| && Innermost(frames[..d], cause) == Innermost(frames, cause)
      {
        assert frames[..d][..d - 1] == frames[..d - 1];
        d := d - 1;
      }
    }

    /** `siod_lthrow` */
    method Throw(tag: Ptr, v: Ptr) returns (r: Result)
      modifies this
      ensures Is(r, ThrowTo(tag, v, old(Now())))
    {
      var d := FindFrame(Thrown(tag));
      if d > 0 {
        return Longjmp(d, v, Thrown(tag));
      }
      r := RaiseError("no *catch found with this tag", tag);
    }

    /** `err` */
    method RaiseError(msg: string, x: Ptr) returns (r: Result)
      modifies this
      ensures Is(r, Err(msg, x, old(Now())))
    {
      globals := globals[ERROBJ := x];
      var d := FindFrame(Raised);
      if d == 0 {
        return ToTopLevel;
      }
      var text := |mem|;
      mem := mem + [Text(msg)];
      mem := mem + [Cons(text, x)];
      return Longjmp(d, |mem| - 1, Raised);
    }

    /** The inner loop of `siod_envlookup`, over formals and actuals together. */
    method EnvLookupFrame(k: nat, x: Ptr, frame: Ptr, fl0: Ptr, al0: Ptr) returns (r: Result)
      modifies this
      ensures Is(r, LookupFrame(k, x, fl0, al0, frame, old(Now())))
    {
      var n, fl, al := k, fl0, al0;
      while n > 0 && IsCons(fl, Now())
        invariant Now() == old(Now())
        invariant LookupFrame(k, x, fl0, al0, frame, Now()) == LookupFrame(n, x, fl, al, frame, Now())
        decreases n
      {
        if !IsCons(al, Now()) {
          r := RaiseError("too few arguments", frame);
          return;
        }
        if mem[fl].car == x {
          return Value(al);
        }
        fl, al, n := mem[fl].cdr, mem[al].cdr, n - 1;
      }
      if n == 0 {
        return OutOfSteps;
      }
      if IsSymbol(fl, Now()) && fl == x {
        mem := mem + [Cons(al, 0)];
        return Value(|mem| - 1);
      }
      return Value(0);
    }

    /** `siod_envlookup` */
    method EnvLookup(k: nat, x: Ptr, env: Ptr) returns (r: Result)
      modifies this
      ensures Is(r, Lookup(k, x, env, old(Now())))
    {
      hide LookupFrame;
      var n, e := k, env;
      while n > 0 && IsCons(e, Now())
        invariant Now() == old(Now())
        invariant Lookup(k, x, env, Now()) == Lookup(n, x, e, Now(), env)
        decreases n
      {
        var frame := mem[e].car;
        if !IsCons(frame, Now()) {
          r := RaiseError("damaged frame", frame);
          return;
        }
        r := EnvLookupFrame(n - 1, x, frame, mem[frame].car, mem[frame].cdr);
        if r != Value(0) {
          return;
        }
        e, n := mem[e].cdr, n - 1;
      }
      if n == 0 {
        return OutOfSteps;
      }
      if e != 0 {
        r := RaiseError("damaged env", env);
        return;
      }
      return Value(0);
    }

    method GetVariable(k: nat, x: Ptr, env: Ptr) returns (r: Result)
      modifies this
      ensures Is(r, Variable(k, x, env, old(Now())))
    {
      hide Lookup;
      r := EnvLookup(k, x, env);
      if r.Value? {
        if r.v != 0 {
          return Value(mem[r.v].car);
        } else if x in globals {
          return Value(globals[x]);
        } else {
          r := RaiseError("unbound variable", x);
        }
      }
    }

    /** `siod_setvar` */
    method SetVariable(k: nat, x: Ptr, v: Ptr, env: Ptr) returns (r: Result)
      modifies this
      ensures Is(r, SetVar(k, x, v, env, old(Now())))
    {
      hide Lookup;
      if !IsSymbol(x, Now()) {
        r := RaiseError("wta(non-symbol) to setvar", x);
        return;
      }
      r := EnvLookup(k, x, env);
      if r.Value? {
        if r.v == 0 {
          globals := globals[x := v];
        } else {
          mem := mem[r.v := Cons(v, mem[r.v].cdr)];
        }
        r := Value(v);
      }
    }

    method GetCar(p: Ptr) returns (r: Result)
      modifies this
      ensures Is(r, Car(p, old(Now())))
    {
      if p == 0 {
        return Value(0);
      }
      if IsCons(p, Now()) {
        return Value(mem[p].car);
      }
      r := RaiseError("wta to car", p);
    }

    method GetCdr(p: Ptr) returns (r: Result)
      modifies this
      ensures Is(r, Cdr(p, old(Now())))
    {
      if p == 0 {
        return Value(0);
      }
      if IsCons(p, Now()) {
        return Value(mem[p].cdr);
      }
      r := RaiseError("wta to cdr", p);
    }

    /** CDR `i` times. */
    method GetDrop(p: Ptr, i: nat) returns (r: Result)
      modifies this
      ensures Is(r, Drop(p, i, old(Now())))
    {
      hide Cdr;
      r := Value(p);
      for j := 0 to i
        invariant Now() == old(Now()) && r.Value? && Drop(p, j, Now()) == Done(r.v, Now())
      {
        ghost var st, q := Now(), r.v;
        r := GetCdr(r.v);
        if !r.Value? {
          DropFails(p, j + 1, i, st);
          return;
        }
      }
    }

    /** The CAR of the CDR taken `i` times. */
    method GetNth(p: Ptr, i: nat) returns (r: Result)
      modifies this
      ensures Is(r, Nth(p, i, old(Now())))
    {
      hide Car, Drop;
      r := GetDrop(p, i);
      if r.Value? {
        r := GetCar(r.v);
      }
    }

    /** siod_cons */
    method NewPair(a: Ptr, b: Ptr) returns (p: Ptr)
      modifies this`mem
      ensures p == |old(mem)| && Now() == Alloc(Cons(a, b), old(Now()))
    {
      p := |mem|;
      mem := mem + [Cons(a, b)];
    }

    /** `siod_extend_env` */
    method ExtendEnv(actuals: Ptr, formals: Ptr, env: Ptr) returns (e: Ptr)
      modifies this`mem
      ensures Extend(actuals, formals, env, old(Now())) == Done(e, Now())
    {
      if IsSymbol(formals, Now()) {
        var names := NewPair(formals, 0);
        var values := NewPair(actuals, 0);
        var frame := NewPair(names, values);
        e := NewPair(frame, env);
      } else {
        var frame := NewPair(formals, actuals);
        e := NewPair(frame, env);
      }
    }

    /** `siod_leval_lambda` */
    method LevalLambda(args: Ptr, env: Ptr) returns (r: Result)
      modifies this
      ensures Is(r, MakeClosure(args, env, old(Now())))
    {
      hide Car, Cdr, Nth, Drop;
      var rest := GetDrop(args, 2);
      if !rest.Value? {
        return rest;
      }
      var formals := GetCar(args);
      if !formals.Value? {
        return formals;
      }
      var one := GetNth(args, 1);
      if !one.Value? {
        return one;
      }
      var body := one.v;
      if rest.v != 0 {
        var many := GetCdr(args);
        if !many.Value? {
          return many;
        }
        body := NewPair(BEGIN, many.v);
      }
      var code := NewPair(formals.v, body);
      mem := mem + [Closure(env, code)];
      r := Value(|mem| - 1);
    }

    /** (name (lambda formals . body)) */
    method NamedLambda(name: Ptr, formals: Ptr, body: Ptr) returns (p: Ptr)
      modifies this`mem
      ensures p == |old(mem)| + 3
      ensures mem == old(mem) + [Cons(formals, body), Cons(LAMBDA, |old(mem)|), Cons(|old(mem)| + 1, 0), Cons(name, |old(mem)| + 2)]
    {
      p := NewPair(formals, body);
      p := NewPair(LAMBDA, p);
      p := NewPair(p, 0);
      p := NewPair(name, p);
    }

    /** `siod_syntax_define`, whose call of itself is its last. */
    method SyntaxOfDefine(k: nat, args0: Ptr) returns (r: Result)
      modifies this
      ensures Is(r, SyntaxDefine(k, args0, old(Now())))
    {
      hide Car, Cdr, Nth, Drop;
      var n, args := k, args0;
      ghost var goal := SyntaxDefine(k, args0, Now());
      while n > 0
        invariant goal == SyntaxDefine(n, args, Now())
        decreases n
      {
        var x := GetCar(args);
        if !x.Value? {
          return x;
        }
        if IsSymbol(x.v, Now()) {
          return Value(args);
        }
        var formals := GetCdr(x.v);
        if !formals.Value? {
          return formals;
        }
        var body := GetCdr(args);
        if !body.Value? {
          return body;
        }
        var name := GetCar(x.v);
        if !name.Value? {
          return name;
        }
        args := NamedLambda(name.v, formals.v, body.v);
        n := n - 1;
      }
      return OutOfSteps;
    }

    /** The end of `siod_leval_define`: assign the variable that is there, or put a new one
        in front of the innermost frame. */
    method DefineVariable(k: nat, x: Ptr, v: Ptr, env: Ptr) returns (r: Result)
      modifies this
      ensures Is(r, DefineVar(k, x, v, env, old(Now())))
    {
      hide Lookup, Car;
      r := EnvLookup(k, x, env);
      if !r.Value? {
        return;
      }
      if r.v != 0 {
        mem := mem[r.v := Cons(v, mem[r.v].cdr)];
        return Value(v);
      }
      if env == 0 {
        globals := globals[x := v];
        return Value(v);
      }
      var frame := GetCar(env);
      if !frame.Value? {
        return frame;
      }
      if !IsCons(frame.v, Now()) {
        r := RaiseError("wta to setcar", frame.v);
        return;
      }
      var f := frame.v;
      var names := NewPair(x, mem[f].car);
      mem := mem[f := Cons(names, mem[f].cdr)];
      var values := NewPair(v, mem[f].cdr);
      mem := mem[f := Cons(mem[f].car, values)];
      r := Value(v);
    }

    // ---- The let macros, which rewrite the form in place -------------------------------

    /** `siod_reverse` */
    method ReverseList(k: nat, l0: Ptr, onto0: Ptr) returns (r: Result)
      modifies this
      ensures Is(r, Reverse(k, l0, onto0, old(Now())))
    {
      hide Car, Cdr;
      var n, l, onto := k, l0, onto0;
      ghost var goal := Reverse(k, l0, onto0, Now());
      while l != 0
        invariant goal == Reverse(n, l, onto, Now())
        decreases n
      {
        if n == 0 {
          return OutOfSteps;
        }
        var x := GetCar(l);
        if !x.Value? {
          return x;
        }
        var next := GetCdr(l);
        if !next.Value? {
          return next;
        }
        onto := NewPair(x.v, onto);
        l, n := next.v, n - 1;
      }
      r := Value(onto);
    }

    /** The first loop of `siod_let_macro`. */
    method SplitLet(k: nat, p0: Ptr) returns (fl: Ptr, al: Ptr, o: Result)
      modifies this
      ensures match SplitBindings(k, p0, 0, 0, old(Now()))
              case Values(vs, _, s) => o.Value? && vs == [fl, al] && Now() == s
              case NoValues(out) => !o.Value? && Is(o, out)
    {
      hide Car, Cdr, Nth;
      var n, p := k, p0;
      fl, al := 0, 0;
      ghost var goal := SplitBindings(k, p0, 0, 0, Now());
      while p != 0
        invariant goal == SplitBindings(n, p, fl, al, Now())
        decreases n
      {
        if n == 0 {
          o := OutOfSteps;
          return;
        }
        o := GetCar(p);
        if !o.Value? {
          return;
        }
        var b := o.v;
        var next := GetCdr(p);
        if !next.Value? {
          o := next;
          return;
        }
        var name, init := b, 0;
        if !IsSymbol(b, Now()) {
          o := GetCar(b);
          if !o.Value? {
            return;
          }
          name := o.v;
          o := GetNth(b, 1);
          if !o.Value? {
            return;
          }
          init := o.v;
        }
        ghost var m, fl0, al0 := mem, fl, al;
        fl := NewPair(name, fl);
        al := NewPair(init, al);
        assert mem == m + [Cons(name, fl0), Cons(init, al0)];
        p, n := next.v, n - 1;
      }
      o := Value(0);
    }

    /** `siod_setcdr` and `siod_setcar` on the form. */
    method RewriteForm(form: Ptr, head: Ptr, rest: Ptr) returns (r: Result)
      modifies this
      ensures Is(r, Rewrite(form, head, rest, old(Now())))
    {
      if !IsCons(form, Now()) {
        r := RaiseError("wta to setcdr", form);
        return;
      }
      mem := mem[form := Cons(mem[form].car, rest)];
      mem := mem[form := Cons(head, mem[form].cdr)];
      r := Value(form);
    }

    /** `siod_let_macro` */
    method LetMacroInPlace(k: nat, form: Ptr) returns (r: Result)
      modifies this
      ensures Is(r, ExpandLet(k, form, old(Now())))
    {
      hide Nth, Drop, SplitBindings, FinishLet;
      var bindings := GetNth(form, 1);
      if !bindings.Value? {
        return bindings;
      }
      var body := GetDrop(form, 2);
      if !body.Value? {
        return body;
      }
      var fl, al, o := SplitLet(k, bindings.v);
      if !o.Value? {
        return o;
      }
      r := FinishLetInPlace(k, form, body.v, fl, al);
    }

    method FinishLetInPlace(k: nat, form: Ptr, body: Ptr, fl: Ptr, al: Ptr) returns (r: Result)
      modifies this
      ensures Is(r, FinishLet(k, form, body, fl, al, old(Now())))
    {
      hide Car, Cdr, Reverse, Rewrite;
      var more := GetCdr(body);
      if !more.Value? {
        return more;
      }
      var one := GetCar(body);
      if !one.Value? {
        return one;
      }
      var b := one.v;
      if more.v != 0 {
        b := NewPair(BEGIN, body);
      }
      var inits := ReverseList(k, al, 0);
      if !inits.Value? {
        return inits;
      }
      var names := ReverseList(k, fl, 0);
      if !names.Value? {
        return names;
      }
      ghost var m := mem;
      var p := NewPair(b, 0);
      p := NewPair(inits.v, p);
      p := NewPair(names.v, p);
      assert mem == m + [Cons(b, 0), Cons(inits.v, |m|), Cons(names.v, |m| + 1)];
      r := RewriteForm(form, LET_INTERNAL, p);
    }

    /** `siod_letstar_macro` */
    method LetStarMacroInPlace(form: Ptr) returns (r: Result)
      modifies this
      ensures Is(r, ExpandLetStar(form, old(Now())))
    {
      hide Car, Cdr, Nth, Drop, Rewrite;
      var bindings := GetNth(form, 1);
      if !bindings.Value? {
        return bindings;
      }
      var others := GetCdr(bindings.v);
      if !others.Value? {
        return others;
      }
      var body := GetDrop(form, 2);
      if !body.Value? {
        return body;
      }
      var first := GetCar(bindings.v);
      if !first.Value? {
        return first;
      }
      if bindings.v != 0 && others.v != 0 {
        ghost var m := mem;
        var inner := NewPair(others.v, body.v);
        inner := NewPair(LET_STAR, inner);
        inner := NewPair(inner, 0);
        var bs := NewPair(first.v, 0);
        bs := NewPair(bs, inner);
        assert mem == m + [Cons(others.v, body.v), Cons(LET_STAR, |m|), Cons(|m| + 1, 0), Cons(first.v, 0), Cons(|m| + 3, |m| + 2)];
        r := RewriteForm(form, LET, bs);
        return;
      }
      if !IsCons(form, Now()) {
        r := RaiseError("wta to setcar", form);
        return;
      }
      mem := mem[form := Cons(LET, mem[form].cdr)];
      r := Value(form);
    }

    /** A binding to nothing in front of `letb`, an assignment in front of `setb`. */
    method BindAndSet(name: Ptr, init: Ptr, letb: Ptr, setb: Ptr) returns (lb: Ptr, sb: Ptr)
      modifies this`mem
      ensures lb == |old(mem)| + 1 && sb == |old(mem)| + 5
      ensures mem == old(mem) + [Cons(name, 0), Cons(|old(mem)|, letb), Cons(init, 0), Cons(name, |old(mem)| + 2),
                                 Cons(SET, |old(mem)| + 3), Cons(|old(mem)| + 4, setb)]
    {
      var p := NewPair(name, 0);
      lb := NewPair(p, letb);
      p := NewPair(init, 0);
      p := NewPair(name, p);
      p := NewPair(SET, p);
      sb := NewPair(p, setb);
    }

    /** The loop of `siod_letrec_macro`. */
    method SplitLetrecForm(k: nat, l0: Ptr, body: Ptr) returns (letb: Ptr, setb: Ptr, o: Result)
      modifies this
      ensures match SplitLetrec(k, l0, 0, body, old(Now()))
              case Values(vs, _, s) => o.Value? && vs == [letb, setb] && Now() == s
              case NoValues(out) => !o.Value? && Is(o, out)
    {
      hide Car, Cdr, Nth;
      var n, l := k, l0;
      letb, setb := 0, body;
      ghost var goal := SplitLetrec(k, l0, 0, body, Now());
      while l != 0
        invariant goal == SplitLetrec(n, l, letb, setb, Now())
        decreases n
      {
        if n == 0 {
          o := OutOfSteps;
          return;
        }
        o := GetCar(l);
        if !o.Value? {
          return;
        }
        var b := o.v;
        var next := GetCdr(l);
        if !next.Value? {
          o := next;
          return;
        }
        o := GetCar(b);
        if !o.Value? {
          return;
        }
        var name := o.v;
        o := GetNth(b, 1);
        if !o.Value? {
          return;
        }
        var init := o.v;
        letb, setb := BindAndSet(name, init, letb, setb);
        l, n := next.v, n - 1;
      }
      o := Value(0);
    }

    /** `siod_letrec_macro` */
    method LetrecMacroInPlace(k: nat, form: Ptr) returns (r: Result)
      modifies this
      ensures Is(r, ExpandLetrec(k, form, old(Now())))
    {
      hide Nth, Drop, SplitLetrec, Rewrite;
      var bindings := GetNth(form, 1);
      if !bindings.Value? {
        return bindings;
      }
      var body := GetDrop(form, 2);
      if !body.Value? {
        return body;
      }
      var letb, setb, o := SplitLetrecForm(k, bindings.v, body.v);
      if !o.Value? {
        return o;
      }
      var p := NewPair(letb, setb);
      r := RewriteForm(form, LET, p);
    }

    /** Call the C function of a subr; one that is not modelled is whatever `P` says. */
    method CallSubr(P: Primitives, k: nat, fn: Fn, args: seq<Ptr>) returns (r: Result)
      requires Disciplined(P)
      modifies this
      ensures Is(r, CallFn(P, k, fn, args, old(Now())))
    {
      hide ExpandLet, ExpandLetStar, ExpandLetrec, ThrowTo;
      match fn
      case LetMacro => r := LetMacroInPlace(k, Arg(args, 0));
      case LetStarMacro => r := LetStarMacroInPlace(Arg(args, 0));
      case LetrecMacro => r := LetrecMacroInPlace(k, Arg(args, 0));
      case Throw => r := Throw(Arg(args, 0), Arg(args, 1));
      case Other(id) => r := Install(P(id, args, Now()));
    }

    /** `siod_leval`: a loop that goes on with a new form and environment after a tail
        call, and returns otherwise. */
    method Leval(P: Primitives, k: nat, x0: Ptr, env0: Ptr) returns (r: Result)
      requires Disciplined(P)
      modifies this
      ensures Is(r, Eval(P, k, x0, env0, old(Now())))
      decreases k, 2
    {
      hide Variable, EvalArgs, EvalSome, EvalFold, EvalForm, EvalTail, CallFn, Extend, Car, Cdr, Err;
      var n, x, env := k, x0, env0;
      ghost var goal := Eval(P, k, x0, env0, Now());
      while true
        invariant 0 <= n <= k && goal == Eval(P, n, x, env, Now())
        decreases n
      {
        if n == 0 {
          return OutOfSteps;
        }
        if IsSymbol(x, Now()) {
          r := GetVariable(n - 1, x, env);
          return;
        }
        if !IsCons(x, Now()) {
          return Value(x);
        }
        var head := mem[x].car;
        var f := Value(head);
        if IsSymbol(head, Now()) {
          f := GetVariable(n - 1, head, env);
        } else if IsCons(head, Now()) {
          f := Leval(P, n - 1, head, env);
        }
        if !f.Value? {
          return f;
        }
        var next := LevalCall(P, n - 1, f.v, x, env);
        match next {
          case Return(o) => return o;
          case GoOn(x', env', steps) =>
            x, env, n := x', env', steps;
        }
      }
    }

    /** The switch on the kind of function inside the loop. */
    method LevalCall(P: Primitives, k: nat, f: Ptr, x: Ptr, env: Ptr) returns (next: Next)
      requires Disciplined(P)
      modifies this
      ensures match next
              case Return(r) => Is(r, Call(P, k, f, x, env, old(Now())))
              case GoOn(x', env', n) => n < k && Call(P, k, f, x, env, old(Now())) == Eval(P, n, x', env', Now())
      decreases k, 1
    {
      hide Eval, Variable, EvalArgs, EvalSome, EvalFold, EvalForm, EvalTail, CallFn, Err, Enter;
      if k == 0 {
        return Return(OutOfSteps);
      }
      var r: Result;
      if !IsCons(x, Now()) || !(0 < f < |mem|) {
        r := RaiseError("bad function", f);
        return Return(r);
      }
      var l := mem[x].cdr;
      match mem[f] {
        case Subr(_, _) =>
          r := LevalSubr(P, k, f, x, env);
          next := Return(r);
        case FSubr(form) =>
          r := LevalForm(P, k - 1, form, l, env);
          next := Return(r);
        case MSubr(tail) =>
          next := LevalTail(P, k - 1, tail, l, env);
          if next.GoOn? {
            next := next.(steps := k - 1);
          }
        case Closure(_, _) =>
          next := LevalClosure(P, k, f, x, env);
        case Symbol =>
          var p := |mem|;
          mem := mem + [Cons(x, 0), Cons(QUOTE, p), Cons(p + 1, 0), Cons(f, p + 2)];
          r := Leval(P, k - 1, p + 3, 0);
          next := if r.Value? then GoOn(r.v, env, k - 1) else Return(r);
        case _ =>
          r := RaiseError("bad function", f);
          next := Return(r);
      }
    }

    method LevalSubr(P: Primitives, k: nat, f: Ptr, x: Ptr, env: Ptr) returns (r: Result)
      requires Disciplined(P) && k > 0 && IsCons(x, Now()) && 0 < f < |mem| && mem[f].Subr?
      modifies this
      ensures Is(r, Call(P, k, f, x, env, old(Now())))
      decreases k, 0
    {
      hide Eval, EvalArgs, EvalSome, EvalFold, CallFn;
      var l, fn := mem[x].cdr, mem[f].fn;
      match mem[f].arity
      case Exactly(n) =>
        var vs, rest, o := LevalSome(P, k - 1, n, l, env);
        if o.Value? {
          r := CallSubr(P, k - 1, fn, vs);
        } else {
          r := o;
        }
      case TwoOrMore =>
        var vs, rest, o := LevalSome(P, k - 1, 2, l, env);
        if o.Value? {
          r := LevalFold(P, k - 1, fn, vs[0], vs[1], rest, env);
        } else {
          r := o;
        }
      case AnyNumber =>
        r := LevalArgs(P, k - 1, l, env);
        if r.Value? {
          r := CallSubr(P, k - 1, fn, [r.v]);
        }
    }

    /** A closure over a lambda is entered by a tail call; one over a subr calls it. */
    method LevalClosure(P: Primitives, k: nat, f: Ptr, x: Ptr, env: Ptr) returns (next: Next)
      requires Disciplined(P) && k > 0 && IsCons(x, Now()) && 0 < f < |mem| && mem[f].Closure?
      modifies this
      ensures match next
              case Return(r) => Is(r, Call(P, k, f, x, env, old(Now())))
              case GoOn(x', env', n) => n < k && Call(P, k, f, x, env, old(Now())) == Eval(P, n, x', env', Now())
      decreases k, 0
    {
      hide Eval, EvalArgs, EvalSome, CallFn, Err;
      var r: Result;
      var l, cenv, code := mem[x].cdr, mem[f].env, mem[f].code;
      if !(0 < code < |mem|) {
        r := RaiseError("closure code type not valid", f);
        return Return(r);
      }
      var c := mem[code];
      if c.Cons? {
        r := LevalArgs(P, k - 1, l, env);
        if r.Value? {
          next := EnterClosure(P, k - 1, r.v, cenv, code);
          return;
        }
      } else if c.Subr? && c.arity.AnyNumber? {
        r := LevalArgs(P, k - 1, l, env);
        if r.Value? {
          var cell := |mem|;
          mem := mem + [Cons(cenv, r.v)];
          r := CallSubr(P, k - 1, c.fn, [cell]);
        }
      } else if c.Subr? && c.arity.Exactly? && c.arity.n > 0 {
        var vs, rest, o := LevalSome(P, k - 1, c.arity.n - 1, l, env);
        r := o;
        if o.Value? {
          r := CallSubr(P, k - 1, c.fn, [cenv] + vs);
        }
      } else {
        r := RaiseError("closure code type not valid", f);
      }
      return Return(r);
    }

    method EnterClosure(P: Primitives, k: nat, args: Ptr, cenv: Ptr, code: Ptr) returns (next: Next)
      requires Disciplined(P)
      modifies this
      ensures match next
              case Return(r) => Is(r, Enter(P, k, args, cenv, code, old(Now())))
              case GoOn(x', env', n) => n < k && Enter(P, k, args, cenv, code, old(Now())) == Eval(P, n, x', env', Now())
    {
      hide Eval, Err;
      if k == 0 {
        return Return(OutOfSteps);
      }
      var formals := GetCar(code);
      if !formals.Value? {
        return Return(formals);
      }
      var e := ExtendEnv(args, formals.v, cenv);
      var body := GetCdr(code);
      if !body.Value? {
        return Return(body);
      }
      return GoOn(body.v, e, k - 1);
    }

    /** The first `n` arguments, one after the other. */
    method LevalSome(P: Primitives, k: nat, n: nat, l: Ptr, env: Ptr) returns (vs: seq<Ptr>, rest: Ptr, o: Result)
      requires Disciplined(P)
      modifies this
      ensures match EvalSome(P, k, n, l, env, old(Now()))
              case Values(ws, at, s) => o.Value? && vs == ws && rest == at && Now() == s
              case NoValues(out) => Is(o, out) && !o.Value?
      decreases k, 3
    {
      hide Eval, Car, Cdr, Err, Innermost, Catches, Disciplined, Kept, SomeLeft;
      vs, rest, o := [], l, Value(0);
      ghost var goal := EvalSome(P, k, n, l, env, Now());
      var j, m, at := k, n, l;
      NothingYet(goal, rest, n);
      while m > 0
        invariant 0 <= j <= k && 0 <= m <= n && o.Value? && |vs| == n - m
        invariant SomeLeft(goal, vs, rest, m, EvalSome(P, j, m, at, env, Now()))
        decreases m
      {
        ghost var left := EvalSome(P, j, m, at, env, Now());
        StoppedShort(goal, vs, rest, m, left);
        if j == 0 {
          o := OutOfSteps;
          return;
        }
        var x := GetCar(at);
        if !x.Value? {
          o := x;
          return;
        }
        var a := Leval(P, j - 1, x.v, env);
        if !a.Value? {
          o := a;
          return;
        }
        if m == 1 {
          LastOne(goal, vs, rest, a.v, at, Now());
          vs, rest := vs + [a.v], at;
          return;
        }
        var next := GetCdr(at);
        if !next.Value? {
          o := next;
          return;
        }
        OneLess(goal, vs, rest, m, a.v, EvalSome(P, j - 1, m - 1, next.v, env, Now()));
        vs, at, j, m := vs + [a.v], next.v, j - 1, m - 1;
      }
      NoneLeft(goal, vs, rest, at, Now());
    }

    /** The fold of subr_2n. */
    method LevalFold(P: Primitives, k: nat, fn: Fn, a0: Ptr, b0: Ptr, l0: Ptr, env: Ptr) returns (r: Result)
      requires Disciplined(P)
      modifies this
      ensures Is(r, EvalFold(P, k, fn, a0, b0, l0, env, old(Now())))
      decreases k, 3
    {
      hide Eval, CallFn, Cdr;
      var n, a, b, l := k, a0, b0, l0;
      ghost var goal := EvalFold(P, k, fn, a0, b0, l0, env, Now());
      while n > 0
        invariant 0 <= n <= k && goal == EvalFold(P, n, fn, a, b, l, env, Now())
        decreases n
      {
        r := CallSubr(P, n - 1, fn, [a, b]);
        if !r.Value? {
          return;
        }
        var next := GetCdr(l);
        if !next.Value? {
          return next;
        }
        if !IsCons(next.v, Now()) {
          return;
        }
        var v := Leval(P, n - 1, mem[next.v].car, env);
        if !v.Value? {
          return v;
        }
        a, b, l, n := r.v, v.v, next.v, n - 1;
      }
      return OutOfSteps;
    }

    /** `siod_leval_args`: each value goes into a new cell hung on the last one. */
    method LevalArgs(P: Primitives, k: nat, l: Ptr, env: Ptr) returns (r: Result)
      requires Disciplined(P)
      modifies this
      ensures Is(r, EvalArgs(P, k, l, env, old(Now())))
      decreases k, 3
    {
      hide Eval, MoreArgs, Cdr, Err;
      if k == 0 {
        return OutOfSteps;
      }
      if l == 0 {
        return Value(0);
      }
      if !IsCons(l, Now()) {
        r := RaiseError("bad syntax argument list", l);
        return;
      }
      r := Leval(P, k - 1, mem[l].car, env);
      if !r.Value? {
        return;
      }
      var first := |mem|;
      mem := mem + [Cons(r.v, 0)];
      var next := GetCdr(l);
      if !next.Value? {
        return next;
      }
      r := LevalMoreArgs(P, k - 1, first, next.v, l, env);
      if r.Value? {
        r := Value(first);
      }
    }

    method LevalMoreArgs(P: Primitives, k: nat, last0: Ptr, l0: Ptr, all: Ptr, env: Ptr) returns (r: Result)
      requires Disciplined(P)
      modifies this
      ensures Is(r, MoreArgs(P, k, last0, l0, all, env, old(Now())))
      decreases k, 3
    {
      hide Eval, Cdr, Err;
      var n: nat, last: Ptr, l: Ptr := k, last0, l0;
      ghost var goal := MoreArgs(P, k, last0, l0, all, env, Now());
      while n > 0 && IsCons(l, Now())
        invariant 0 <= n <= k && goal == MoreArgs(P, n, last, l, all, env, Now())
        decreases n
      {
        r := Leval(P, n - 1, mem[l].car, env);
        if !r.Value? {
          return;
        }
        var cell := |mem|;
        mem := mem + [Cons(r.v, 0)];
        if !IsCons(last, Now()) {
          r := RaiseError("damaged argument list", all);
          return;
        }
        mem := mem[last := Cons(mem[last].car, cell)];
        var next := GetCdr(l);
        if !next.Value? {
          return next;
        }
        last, l, n := cell, next.v, n - 1;
      }
      if n == 0 {
        return OutOfSteps;
      }
      if l != 0 {
        r := RaiseError("bad syntax argument list", all);
        return;
      }
      return Value(0);
    }

    /** The loop over the forms of a body. */
    method LevalEach(P: Primitives, k: nat, l0: Ptr, v0: Ptr, env: Ptr) returns (r: Result)
      requires Disciplined(P)
      modifies this
      ensures Is(r, EvalEach(P, k, l0, v0, env, old(Now())))
      decreases k, 3
    {
      hide Eval, Car, Cdr;
      var n, l, v := k, l0, v0;
      ghost var goal := EvalEach(P, k, l0, v0, env, Now());
      while n > 0 && l != 0
        invariant 0 <= n <= k && goal == EvalEach(P, n, l, v, env, Now())
        decreases n
      {
        var x := GetCar(l);
        if !x.Value? {
          return x;
        }
        var a := Leval(P, n - 1, x.v, env);
        if !a.Value? {
          return a;
        }
        var next := GetCdr(l);
        if !next.Value? {
          return next;
        }
        l, v, n := next.v, a.v, n - 1;
      }
      r := if n == 0 then OutOfSteps else Value(v);
    }

    /** The fsubrs. */
    method LevalForm(P: Primitives, k: nat, form: FormCode, args: Ptr, env: Ptr) returns (r: Result)
      requires Disciplined(P)
      modifies this
      ensures Is(r, EvalForm(P, k, form, args, env, old(Now())))
      decreases k, 1
    {
      if form.While? {
        r := LevalWhile(P, k, args, env);
        return;
      }
      hide Car, MakeClosure, EvalDefine, EvalCatch, EvalSome, Eval, Nth, SetVar;
      if k == 0 {
        return OutOfSteps;
      }
      match form
      case Quote => r := GetCar(args);
      case Environment => r := Value(env);
      case Lambda => r := LevalLambda(args, env);
      case Define => r := LevalDefine(P, k - 1, args, env);
      case Set => r := LevalSet(P, k, args, env);
      case SetQ => r := LevalSetq(P, k, args, env);
      case Catch => r := LevalCatch(P, k - 1, args, env);
    }

    /** `siod_leval_set` */
    method LevalSet(P: Primitives, k: nat, args: Ptr, env: Ptr) returns (r: Result)
      requires Disciplined(P) && k > 0
      modifies this
      ensures Is(r, EvalForm(P, k, Set, args, env, old(Now())))
      decreases k, 0
    {
      hide EvalSome, SetVar;
      var vs, _, o := LevalSome(P, k - 1, 2, args, env);
      r := o;
      if o.Value? {
        r := SetVariable(k - 1, vs[0], vs[1], env);
      }
    }

    /** `siod_leval_setq` */
    method LevalSetq(P: Primitives, k: nat, args: Ptr, env: Ptr) returns (r: Result)
      requires Disciplined(P) && k > 0
      modifies this
      ensures Is(r, EvalForm(P, k, SetQ, args, env, old(Now())))
      decreases k, 0
    {
      hide Eval, Car, Nth, SetVar;
      r := GetNth(args, 1);
      if r.Value? {
        var v := Leval(P, k - 1, r.v, env);
        r := v;
        if v.Value? {
          r := GetCar(args);
          if r.Value? {
            r := SetVariable(k - 1, r.v, v.v, env);
          }
        }
      }
    }

    /** `siod_leval_define` */
    method LevalDefine(P: Primitives, k: nat, args: Ptr, env: Ptr) returns (r: Result)
      requires Disciplined(P)
      modifies this
      ensures Is(r, EvalDefine(P, k, args, env, old(Now())))
      decreases k, 0
    {
      hide Eval, Car, Nth, SyntaxDefine, DefineVar, Err;
      if k == 0 {
        return OutOfSteps;
      }
      var d := SyntaxOfDefine(k - 1, args);
      if !d.Value? {
        return d;
      }
      var name := GetCar(d.v);
      if !name.Value? {
        return name;
      }
      if !IsSymbol(name.v, Now()) {
        r := RaiseError("wta(non-symbol) to define", name.v);
        return;
      }
      r := GetNth(d.v, 1);
      if !r.Value? {
        return;
      }
      var v := Leval(P, k - 1, r.v, env);
      if !v.Value? {
        return v;
      }
      r := DefineVariable(k - 1, name.v, v.v, env);
    }

    /** `siod_leval_while` */
    method LevalWhile(P: Primitives, k: nat, args: Ptr, env: Ptr) returns (r: Result)
      requires Disciplined(P)
      modifies this
      ensures Is(r, EvalForm(P, k, While, args, env, old(Now())))
      decreases k, 0
    {
      hide Eval, Car, Cdr, EvalEach;
      var n := k;
      ghost var goal := EvalForm(P, k, While, args, env, Now());
      while n > 0
        invariant 0 <= n <= k && goal == EvalForm(P, n, While, args, env, Now())
        decreases n
      {
        var x := GetCar(args);
        if !x.Value? {
          return x;
        }
        var c := Leval(P, n - 1, x.v, env);
        if !c.Value? || c.v == 0 {
          return c;
        }
        var body := GetCdr(args);
        if !body.Value? {
          return body;
        }
        var b := LevalEach(P, n - 1, body.v, 0, env);
        if !b.Value? {
          return b;
        }
        n := n - 1;
      }
      return OutOfSteps;
    }

    /** `siod_leval_catch`: the frame is pushed before the body and popped after it; a jump
        to this frame comes back here. */
    method LevalCatch(P: Primitives, k: nat, args: Ptr, env: Ptr) returns (r: Result)
      requires Disciplined(P)
      modifies this
      ensures Is(r, EvalCatch(P, k, args, env, old(Now())))
      ensures r.Value? ==> frames == old(frames)
      decreases k, 1
    {
      hide Eval, Car, EvalFramed;
      if k == 0 {
        return OutOfSteps;
      }
      var x := GetCar(args);
      if !x.Value? {
        return x;
      }
      var tag := Leval(P, k - 1, x.v, env);
      if !tag.Value? {
        return tag;
      }
      r := LevalFramed(P, k - 1, tag.v, args, env);
    }

    method LevalFramed(P: Primitives, k: nat, tag: Ptr, args: Ptr, env: Ptr) returns (r: Result)
      requires Disciplined(P)
      modifies this
      ensures Is(r, EvalFramed(P, k, tag, args, env, old(Now())))
      ensures r.Value? ==> frames == old(frames)
      decreases k, 1
    {
      hide Eval, Cdr, EvalEach, Innermost, Catches, Disciplined;
      if k == 0 {
        return OutOfSteps;
      }
      var outer := frames;
      frames := outer + [tag];
      assert frames[..|outer|] == outer;
      r := GetCdr(args);
      if r.Value? {
        r := LevalEach(P, k - 1, r.v, 0, env);
      }
      if r.Value? {
        frames := frames[..|frames| - 1];
      } else if r.Longjmp? && r.frame == |outer| + 1 {
        frames := outer;
        r := Value(r.v);
      }
    }

    /** The msubrs. */
    method LevalTail(P: Primitives, k: nat, tail: TailCode, l: Ptr, env: Ptr) returns (next: Next)
      requires Disciplined(P)
      modifies this
      ensures IsNext(next, EvalTail(P, k, tail, l, env, old(Now())))
      decreases k, 1
    {
      hide Eval, EvalArgs, Car, Cdr, Nth, EvalSequence;
      if k == 0 {
        return Return(OutOfSteps);
      }
      match tail
      case If =>
        var x := GetCar(l);
        if !x.Value? {
          return Return(x);
        }
        var c := Leval(P, k - 1, x.v, env);
        if !c.Value? {
          return Return(c);
        }
        var branch := GetNth(l, if c.v != 0 then 1 else 2);
        next := if branch.Value? then GoOn(branch.v, env, k) else Return(branch);
      case LetInternal =>
        next := LevalLet(P, k, l, env);
      case _ =>
        if tail.And? && l == 0 {
          return Return(Value(T));
        }
        next := LevalSequence(P, k - 1, tail, l, env);
    }

    /** `siod_leval_let` */
    method LevalLet(P: Primitives, k: nat, l: Ptr, env: Ptr) returns (next: Next)
      requires Disciplined(P) && k > 0
      modifies this
      ensures IsNext(next, EvalTail(P, k, LetInternal, l, env, old(Now())))
      decreases k, 0
    {
      hide EvalArgs, Car, Cdr, Nth;
      var inits := GetNth(l, 1);
      if !inits.Value? {
        return Return(inits);
      }
      var formals := GetCar(l);
      if !formals.Value? {
        return Return(formals);
      }
      var a := LevalArgs(P, k - 1, inits.v, env);
      if !a.Value? {
        return Return(a);
      }
      var e := ExtendEnv(a.v, formals.v, env);
      var body := GetNth(l, 2);
      next := if body.Value? then GoOn(body.v, e, k) else Return(body);
    }

    /** The loop of `begin`, `or` and `and`. */
    method LevalSequence(P: Primitives, k: nat, tail: TailCode, l0: Ptr, env: Ptr) returns (next: Next)
      requires Disciplined(P)
      modifies this
      ensures IsNext(next, EvalSequence(P, k, tail, l0, env, old(Now())))
      decreases k, 3
    {
      hide Eval, Car, Cdr;
      var n, l := k, l0;
      ghost var goal := EvalSequence(P, k, tail, l0, env, Now());
      while n > 0
        invariant 0 <= n <= k && goal == EvalSequence(P, n, tail, l, env, Now())
        decreases n
      {
        var after := GetCdr(l);
        if !after.Value? {
          return Return(after);
        }
        var x := GetCar(l);
        if !x.Value? {
          return Return(x);
        }
        if after.v == 0 {
          return GoOn(x.v, env, n);
        }
        var v := Leval(P, n - 1, x.v, env);
        if !v.Value? || (tail == Or && v.v != 0) || (tail == And && v.v == 0) {
          return Return(v);
        }
        l, n := after.v, n - 1;
      }
      return Return(OutOfSteps);
    }
  }
}
