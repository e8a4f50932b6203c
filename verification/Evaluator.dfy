/** The evaluator (src/slib.c:585-630, 1559-1986; src/sliba.c:1465-1488) over a memory of
    objects that programs, environments and data all share.  A pointer is an index and 0
    is NIL.  Loops and recursion that the C code leaves unbounded run on a step budget
    `k`; running out of it is the outcome `Timeout`. */
module Evaluator {

  type Ptr = nat

  datatype Arity = Exactly(n: nat) | TwoOrMore | AnyNumber

  datatype Fn = LetMacro | LetStarMacro | LetrecMacro | Throw | Other(id: nat)

  datatype FormCode = Quote | Define | Lambda | While | Set | SetQ | Catch | Environment

  datatype TailCode = If | Begin | Or | And | LetInternal

  datatype Obj =
    | Cons(car: Ptr, cdr: Ptr)
    | Symbol
    | Number(n: int)
    | Text(s: string)
    | Subr(arity: Arity, fn: Fn)   // subr_0 .. subr_5, subr_2n, lsubr
    | FSubr(form: FormCode)
    | MSubr(tail: TailCode)
    | Closure(env: Ptr, code: Ptr)

  /** `frames` holds the tags of the live catch frames, the innermost last. */
  datatype State = State(mem: seq<Obj>, globals: map<Ptr, Ptr>, frames: seq<Ptr>)

  /** Why control leaves for a catch frame. */
  datatype Cause = Thrown(tag: Ptr) | Raised

  /** `Jump` is a longjmp to the catch frame at height `frame`; `Quit` is the one to the
      top level. */
  datatype Outcome =
    | Done(v: Ptr, st: State)
    | Jump(frame: nat, v: Ptr, cause: Cause, st: State)
    | Quit(st: State)
    | Timeout

  datatype Values = Values(vs: seq<Ptr>, rest: Ptr, st: State) | NoValues(o: Outcome)

  /** What an msubr leaves: a form to go on with, or an outcome. */
  datatype Tail = Again(x: Ptr, env: Ptr, st: State) | Stop(o: Outcome)

  // The cells of the interned symbols the code itself refers to.
  const T: Ptr := 1
  const QUOTE: Ptr := 2
  const BEGIN: Ptr := 3
  const LAMBDA: Ptr := 4
  const ERROBJ: Ptr := 5
  const CATCH_ALL: Ptr := 6
  const SET: Ptr := 7
  const LET: Ptr := 8
  const LET_STAR: Ptr := 9
  const LETREC: Ptr := 10
  const LET_INTERNAL: Ptr := 11
  const LET_MACRO: Ptr := 12
  const LET_STAR_MACRO: Ptr := 13
  const LETREC_MACRO: Ptr := 14

  /** The C functions behind the other subrs, about which nothing is known but that they
      keep the catch frames in order. */
  type Primitives = (nat, seq<Ptr>, State) -> Outcome

  // ---- Catch frames ---------------------------------------------------------------

  predicate Catches(tag: Ptr, cause: Cause) {
    tag == CATCH_ALL || (match cause case Thrown(t) => tag == t case Raised => tag == ERROBJ)
  }

  /** The height of the innermost frame that catches `cause`, 0 when none does. */
  function Innermost(frames: seq<Ptr>, cause: Cause): (d: nat)
    ensures d <= |frames|
    ensures d > 0 ==> Catches(frames[d - 1], cause)
    ensures forall i :: d <= i < |frames| ==> !Catches(frames[i], cause)
  {
    if frames == [] then 0
    else
      var n := |frames| - 1;
      if Catches(frames[n], cause) then n + 1 else Innermost(frames[..n], cause)
  }

  /** The catch discipline, for code started with the frames `f`: it finishes with the
      same frames, or leaves for the innermost frame of `f` that catches its cause, or
      leaves for the top level because no frame of `f` catches an error. */
  predicate Kept(f: seq<Ptr>, r: Outcome) {
    match r
    case Done(_, st) => st.frames == f
    case Jump(d, _, cause, _) => d > 0 && d == Innermost(f, cause)
    case Quit(_) => Innermost(f, Raised) == 0
    case Timeout => true
  }

  ghost predicate Disciplined(P: Primitives) {
    forall id: nat, args: seq<Ptr>, st: State :: Kept(st.frames, P(id, args, st))
  }

  // ---- Memory ---------------------------------------------------------------------

  predicate IsCons(p: Ptr, st: State) {
    0 < p < |st.mem| && st.mem[p].Cons?
  }

  predicate IsSymbol(p: Ptr, st: State) {
    0 < p < |st.mem| && st.mem[p].Symbol?
  }

  function Alloc(o: Obj, st: State): State {
    st.(mem := st.mem + [o])
  }

  /** A new cons: its pointer is the old size of memory. */
  function NewCons(a: Ptr, b: Ptr, st: State): Outcome {
    Done(|st.mem|, Alloc(Cons(a, b), st))
  }

  function SetCar(p: Ptr, v: Ptr, st: State): (s: State)
    requires IsCons(p, st)
    ensures s.frames == st.frames && s.globals == st.globals
  {
    st.(mem := st.mem[p := Cons(v, st.mem[p].cdr)])
  }

  function SetCdr(p: Ptr, v: Ptr, st: State): (s: State)
    requires IsCons(p, st)
    ensures s.frames == st.frames && s.globals == st.globals
  {
    st.(mem := st.mem[p := Cons(st.mem[p].car, v)])
  }

  /** `err`: note the object, then leave for the innermost frame for errors. */
  function Err(msg: string, x: Ptr, st: State): (r: Outcome)
    ensures Kept(st.frames, r) && !r.Done? && !r.Timeout?
  {
    var s := st.(globals := st.globals[ERROBJ := x]);
    var d := Innermost(s.frames, Raised);
    if d == 0 then Quit(s)
    else
      var s1 := Alloc(Text(msg), s);
      Jump(d, |s1.mem|, Raised, Alloc(Cons(|s.mem|, x), s1))
  }

  /** `siod_lthrow` */
  function ThrowTo(tag: Ptr, v: Ptr, st: State): (r: Outcome)
    ensures Kept(st.frames, r)
  {
    var d := Innermost(st.frames, Thrown(tag));
    if d > 0 then Jump(d, v, Thrown(tag), st)
    else Err("no *catch found with this tag", tag, st)
  }

  function Car(p: Ptr, st: State): (r: Outcome)
    ensures Kept(st.frames, r) && !r.Timeout? && (r.Done? ==> r.st == st)
  {
    if p == 0 then Done(0, st)
    else if IsCons(p, st) then Done(st.mem[p].car, st)
    else Err("wta to car", p, st)
  }

  function Cdr(p: Ptr, st: State): (r: Outcome)
    ensures Kept(st.frames, r) && !r.Timeout? && (r.Done? ==> r.st == st)
  {
    if p == 0 then Done(0, st)
    else if IsCons(p, st) then Done(st.mem[p].cdr, st)
    else Err("wta to cdr", p, st)
  }

  /** CDR `i` times. */
  function Drop(p: Ptr, i: nat, st: State): (r: Outcome)
    ensures Kept(st.frames, r) && !r.Timeout? && (r.Done? ==> r.st == st)
  {
    if i == 0 then Done(p, st)
    else
      var q := Drop(p, i - 1, st);
      if q.Done? then Cdr(q.v, st) else q
  }

  /** The CAR of the CDR taken `i` times. */
  function Nth(p: Ptr, i: nat, st: State): (r: Outcome)
    ensures Kept(st.frames, r) && !r.Timeout? && (r.Done? ==> r.st == st)
  {
    var q := Drop(p, i, st);
    if q.Done? then Car(q.v, st) else q
  }

  // ---- Environments ---------------------------------------------------------------

  /** The cell whose CAR is the value of `x` among the actuals `al` for the formals `fl`,
      or 0. A dotted rest parameter yields a fresh cell. */
  function LookupFrame(k: nat, x: Ptr, fl: Ptr, al: Ptr, frame: Ptr, st: State): (r: Outcome)
    ensures Kept(st.frames, r) && (r.Done? && r.v != 0 ==> IsCons(r.v, r.st))
    ensures r.Done? && r.v == 0 ==> r.st == st
  {
    if k == 0 then Timeout
    else if IsCons(fl, st) then
      if !IsCons(al, st) then Err("too few arguments", frame, st)
      else if st.mem[fl].car == x then Done(al, st)
      else LookupFrame(k - 1, x, st.mem[fl].cdr, st.mem[al].cdr, frame, st)
    else if IsSymbol(fl, st) && fl == x then NewCons(al, 0, st)
    else Done(0, st)
  }

  /** `siod_envlookup`: `env` is what is left of the environment `all`, which an error
      carries. */
  function Lookup(k: nat, x: Ptr, env: Ptr, st: State, all: Ptr := env): (r: Outcome)
    ensures Kept(st.frames, r) && (r.Done? && r.v != 0 ==> IsCons(r.v, r.st))
    ensures r.Done? && r.v == 0 ==> r.st == st
  {
    if k == 0 then Timeout
    else if !IsCons(env, st) then (if env == 0 then Done(0, st) else Err("damaged env", all, st))
    else
      var frame := st.mem[env].car;
      if !IsCons(frame, st) then Err("damaged frame", frame, st)
      else
        var r := LookupFrame(k - 1, x, st.mem[frame].car, st.mem[frame].cdr, frame, st);
        if r.Done? && r.v == 0 then Lookup(k - 1, x, st.mem[env].cdr, st, all) else r
  }

  /** What is found does not depend on the environment the search began with. */
  lemma {:induction false} FoundAnyway(k: nat, x: Ptr, env: Ptr, st: State, a: Ptr, b: Ptr)
    ensures var p, q := Lookup(k, x, env, st, a), Lookup(k, x, env, st, b);
            p == q || (!p.Done? && !p.Timeout? && !q.Done? && !q.Timeout?)
  {
    hide LookupFrame;
    if k > 0 && IsCons(env, st) {
      FoundAnyway(k - 1, x, st.mem[env].cdr, st, a, b);
    }
  }

  /** One turn of the search, as far as finding goes. */
  lemma LookupStep(k: nat, x: Ptr, env: Ptr, st: State)
    ensures var p := Lookup(k, x, env, st);
            if k == 0 then p == Timeout
            else if !IsCons(env, st) then (if env == 0 then p == Done(0, st) else !p.Done? && !p.Timeout?)
            else
              var frame := st.mem[env].car;
              if !IsCons(frame, st) then !p.Done? && !p.Timeout?
              else
                var r := LookupFrame(k - 1, x, st.mem[frame].car, st.mem[frame].cdr, frame, st);
                var q := Lookup(k - 1, x, st.mem[env].cdr, st);
                if r.Done? && r.v == 0 then p == q || (!p.Done? && !p.Timeout? && !q.Done? && !q.Timeout?) else p == r
  {
    hide LookupFrame, Err;
    if k > 0 && IsCons(env, st) {
      FoundAnyway(k - 1, x, st.mem[env].cdr, st, env, st.mem[env].cdr);
    }
  }

  function Variable(k: nat, x: Ptr, env: Ptr, st: State): (r: Outcome)
    ensures Kept(st.frames, r)
  {
    var r := Lookup(k, x, env, st);
    if !r.Done? then r
    else if r.v != 0 then Done(r.st.mem[r.v].car, r.st)
    else if x in st.globals then Done(st.globals[x], st)
    else Err("unbound variable", x, st)
  }

  /** `siod_setvar` */
  function SetVar(k: nat, x: Ptr, v: Ptr, env: Ptr, st: State): (r: Outcome)
    ensures Kept(st.frames, r)
  {
    if !IsSymbol(x, st) then Err("wta(non-symbol) to setvar", x, st)
    else
      var r := Lookup(k, x, env, st);
      if !r.Done? then r
      else if r.v == 0 then Done(v, st.(globals := st.globals[x := v]))
      else Done(v, SetCar(r.v, v, r.st))
  }

  /** `siod_extend_env` */
  function Extend(actuals: Ptr, formals: Ptr, env: Ptr, st: State): (r: Outcome)
    ensures r.Done? && r.st.frames == st.frames
  {
    var p := |st.mem|;
    if IsSymbol(formals, st) then
      Done(p + 3, st.(mem := st.mem + [Cons(formals, 0), Cons(actuals, 0), Cons(p, p + 1), Cons(p + 2, env)]))
    else Done(p + 1, st.(mem := st.mem + [Cons(formals, actuals), Cons(p, env)]))
  }

  // ---- Evaluation -----------------------------------------------------------------

  /** `siod_leval`: each turn of its loop is one call. */
  function Eval(P: Primitives, k: nat, x: Ptr, env: Ptr, st: State): (r: Outcome)
    requires Disciplined(P)
    ensures Kept(st.frames, r)
    decreases k
  {
    if k == 0 then Timeout
    else if IsSymbol(x, st) then Variable(k - 1, x, env, st)
    else if IsCons(x, st) then
      var head := st.mem[x].car;
      var f := if IsSymbol(head, st) then Variable(k - 1, head, env, st)
               else if IsCons(head, st) then Eval(P, k - 1, head, env, st)
               else Done(head, st);
      if f.Done? then Call(P, k - 1, f.v, x, env, f.st) else f
    else Done(x, st)
  }

  /** The call `x` whose operator came to `f`. */
  function Call(P: Primitives, k: nat, f: Ptr, x: Ptr, env: Ptr, st: State): (r: Outcome)
    requires Disciplined(P)
    ensures Kept(st.frames, r)
    decreases k
  {
    if k == 0 then Timeout
    else if !IsCons(x, st) || !(0 < f < |st.mem|) then Err("bad function", f, st)
    else
      var l := st.mem[x].cdr;
      match st.mem[f]
      case Subr(Exactly(n), fn) =>
        var a := EvalSome(P, k - 1, n, l, env, st);
        if a.Values? then CallFn(P, k - 1, fn, a.vs, a.st) else a.o
      case Subr(TwoOrMore, fn) =>
        var a := EvalSome(P, k - 1, 2, l, env, st);
        if a.Values? then EvalFold(P, k - 1, fn, a.vs[0], a.vs[1], a.rest, env, a.st) else a.o
      case Subr(AnyNumber, fn) =>
        var a := EvalArgs(P, k - 1, l, env, st);
        if a.Done? then CallFn(P, k - 1, fn, [a.v], a.st) else a
      case FSubr(form) => EvalForm(P, k - 1, form, l, env, st)
      case MSubr(tail) =>
        var t := EvalTail(P, k - 1, tail, l, env, st);
        if t.Again? then Eval(P, k - 1, t.x, t.env, t.st) else t.o
      case Closure(cenv, code) =>
        if !(0 < code < |st.mem|) then Err("closure code type not valid", f, st)
        else if st.mem[code].Cons? then
          var a := EvalArgs(P, k - 1, l, env, st);
          if a.Done? then Enter(P, k - 1, a.v, cenv, code, a.st) else a
        else if st.mem[code].Subr? && st.mem[code].arity.AnyNumber? then
          var a := EvalArgs(P, k - 1, l, env, st);
          if a.Done? then CallFn(P, k - 1, st.mem[code].fn, [|a.st.mem|], NewCons(cenv, a.v, a.st).st) else a
        else if st.mem[code].Subr? && st.mem[code].arity.Exactly? && st.mem[code].arity.n > 0 then
          var a := EvalSome(P, k - 1, st.mem[code].arity.n - 1, l, env, st);
          if a.Values? then CallFn(P, k - 1, st.mem[code].fn, [cenv] + a.vs, a.st) else a.o
        else Err("closure code type not valid", f, st)
      case Symbol =>
        // (f (quote x)), evaluated globally, is the form to go on with
        var p := |st.mem|;
        var s := st.(mem := st.mem + [Cons(x, 0), Cons(QUOTE, p), Cons(p + 1, 0), Cons(f, p + 2)]);
        var r := Eval(P, k - 1, p + 3, 0, s);
        if r.Done? then Eval(P, k - 1, r.v, env, r.st) else r
      case _ => Err("bad function", f, st)
  }

  /** The body of a closure, on a list of arguments. */
  function Enter(P: Primitives, k: nat, args: Ptr, cenv: Ptr, code: Ptr, st: State): (r: Outcome)
    requires Disciplined(P)
    ensures Kept(st.frames, r)
    decreases k
  {
    if k == 0 then Timeout
    else
      var formals := Car(code, st);
      if !formals.Done? then formals
      else
        var e := Extend(args, formals.v, cenv, st);
        var body := Cdr(code, e.st);
        if body.Done? then Eval(P, k - 1, body.v, e.v, e.st) else body
  }

  /** The first `n` arguments, NIL standing in for missing ones; `rest` is the list whose
      CAR was the last of them. */
  function EvalSome(P: Primitives, k: nat, n: nat, l: Ptr, env: Ptr, st: State): (r: Values)
    requires Disciplined(P)
    ensures match r case Values(_, _, s) => s.frames == st.frames case NoValues(o) => Kept(st.frames, o)
    ensures r.Values? ==> |r.vs| == n
    ensures r.NoValues? ==> !r.o.Done?
    decreases k
  {
    if n == 0 then Values([], l, st)
    else if k == 0 then NoValues(Timeout)
    else
      var x := Car(l, st);
      if !x.Done? then NoValues(x)
      else
        var a := Eval(P, k - 1, x.v, env, st);
        if !a.Done? then NoValues(a)
        else if n == 1 then Values([a.v], l, a.st)
        else
          var next := Cdr(l, a.st);
          if !next.Done? then NoValues(next)
          else
            var more := EvalSome(P, k - 1, n - 1, next.v, env, a.st);
            if more.Values? then Values([a.v] + more.vs, more.rest, more.st) else more
  }

  /** The left fold of subr_2n: call with the arguments so far, step past `l`, and take in
      the next. */
  function EvalFold(P: Primitives, k: nat, fn: Fn, a: Ptr, b: Ptr, l: Ptr, env: Ptr, st: State): (r: Outcome)
    requires Disciplined(P)
    ensures Kept(st.frames, r)
    decreases k
  {
    if k == 0 then Timeout
    else
      var acc := CallFn(P, k - 1, fn, [a, b], st);
      if !acc.Done? then acc
      else
        var next := Cdr(l, acc.st);
        if !next.Done? then next
        else if !IsCons(next.v, acc.st) then acc
        else
          var v := Eval(P, k - 1, acc.st.mem[next.v].car, env, acc.st);
          if v.Done? then EvalFold(P, k - 1, fn, acc.v, v.v, next.v, env, v.st) else v
  }

  /** `siod_leval_args`: a fresh list of values. */
  function EvalArgs(P: Primitives, k: nat, l: Ptr, env: Ptr, st: State): (r: Outcome)
    requires Disciplined(P)
    ensures Kept(st.frames, r)
    decreases k
  {
    if k == 0 then Timeout
    else if l == 0 then Done(0, st)
    else if !IsCons(l, st) then Err("bad syntax argument list", l, st)
    else
      var a := Eval(P, k - 1, st.mem[l].car, env, st);
      if !a.Done? then a
      else
        var first := NewCons(a.v, 0, a.st);
        var next := Cdr(l, first.st);
        if !next.Done? then next
        else
          var r := MoreArgs(P, k - 1, first.v, next.v, l, env, first.st);
          if r.Done? then Done(first.v, r.st) else r
  }

  /** Its loop: evaluate, make a cell, hang it on the last one. */
  function MoreArgs(P: Primitives, k: nat, last: Ptr, l: Ptr, all: Ptr, env: Ptr, st: State): (r: Outcome)
    requires Disciplined(P)
    ensures Kept(st.frames, r)
    decreases k
  {
    if k == 0 then Timeout
    else if !IsCons(l, st) then
      if l == 0 then Done(0, st) else Err("bad syntax argument list", all, st)
    else
      var a := Eval(P, k - 1, st.mem[l].car, env, st);
      if !a.Done? then a
      else
        var cell := NewCons(a.v, 0, a.st);
        if !IsCons(last, cell.st) then Err("damaged argument list", all, cell.st)
        else
          var s := SetCdr(last, cell.v, cell.st);
          var next := Cdr(l, s);
          if next.Done? then MoreArgs(P, k - 1, cell.v, next.v, all, env, s) else next
  }

  /** Each form of a list in turn; the value of the last, or `v` for none. */
  function EvalEach(P: Primitives, k: nat, l: Ptr, v: Ptr, env: Ptr, st: State): (r: Outcome)
    requires Disciplined(P)
    ensures Kept(st.frames, r)
    decreases k
  {
    if k == 0 then Timeout
    else if l == 0 then Done(v, st)
    else
      var x := Car(l, st);
      if !x.Done? then x
      else
        var a := Eval(P, k - 1, x.v, env, st);
        if !a.Done? then a
        else
          var next := Cdr(l, a.st);
          if next.Done? then EvalEach(P, k - 1, next.v, a.v, env, a.st) else next
  }

  /** The fsubrs. */
  function EvalForm(P: Primitives, k: nat, form: FormCode, args: Ptr, env: Ptr, st: State): (r: Outcome)
    requires Disciplined(P)
    ensures Kept(st.frames, r)
    decreases k
  {
    if k == 0 then Timeout
    else
      match form
      case Quote => Car(args, st)
      case Environment => Done(env, st)
      case Lambda => MakeClosure(args, env, st)
      case Define => EvalDefine(P, k - 1, args, env, st)
      case While =>
        var x := Car(args, st);
        if !x.Done? then x
        else
          var c := Eval(P, k - 1, x.v, env, st);
          if !c.Done? then c
          else if c.v == 0 then Done(0, c.st)
          else
            var body := Cdr(args, c.st);
            if !body.Done? then body
            else
              var b := EvalEach(P, k - 1, body.v, 0, env, c.st);
              if b.Done? then EvalForm(P, k - 1, While, args, env, b.st) else b
      case Set =>
        var a := EvalSome(P, k - 1, 2, args, env, st);
        if a.Values? then SetVar(k - 1, a.vs[0], a.vs[1], env, a.st) else a.o
      case SetQ =>
        var x := Nth(args, 1, st);
        if !x.Done? then x
        else
          var v := Eval(P, k - 1, x.v, env, st);
          if !v.Done? then v
          else
            var name := Car(args, v.st);
            if name.Done? then SetVar(k - 1, name.v, v.v, env, v.st) else name
      case Catch => EvalCatch(P, k - 1, args, env, st)
  }

  /** `siod_leval_catch`: push a frame, run the body, and be where a jump to that frame
      lands. */
  function EvalCatch(P: Primitives, k: nat, args: Ptr, env: Ptr, st: State): (r: Outcome)
    requires Disciplined(P)
    ensures Kept(st.frames, r)
    decreases k
  {
    if k == 0 then Timeout
    else
      var x := Car(args, st);
      if !x.Done? then x
      else
        var tag := Eval(P, k - 1, x.v, env, st);
        if tag.Done? then EvalFramed(P, k - 1, tag.v, args, env, tag.st) else tag
  }

  /** The body of a catch, with its frame on top. */
  function EvalFramed(P: Primitives, k: nat, tag: Ptr, args: Ptr, env: Ptr, st: State): (r: Outcome)
    requires Disciplined(P)
    ensures Kept(st.frames, r)
    decreases k
  {
    if k == 0 then Timeout
    else
      var s := st.(frames := st.frames + [tag]);
      assert s.frames[..|st.frames|] == st.frames;
      var body := Cdr(args, s);
      var b := if body.Done? then EvalEach(P, k - 1, body.v, 0, env, s) else body;
      Land(st.frames, b)
  }

  /** `siod_ccall_catch`, its twin for C callers: `body` is the C function. */
  function CcallCatch(tag: Ptr, body: State -> Outcome, st: State): (r: Outcome)
    requires forall s: State :: Kept(s.frames, body(s))
    ensures Kept(st.frames, r)
  {
    var s := st.(frames := st.frames + [tag]);
    assert s.frames[..|st.frames|] == st.frames;
    assert Kept(s.frames, body(s));
    Land(st.frames, body(s))
  }

  /** The end of a catch that was entered with the frames `f`: it pops its frame when the
      body finishes, and restores `f` when it is the target of a jump. */
  function Land(f: seq<Ptr>, b: Outcome): Outcome
    requires b.Done? ==> b.st.frames != []
  {
    match b
    case Done(v, s) => Done(v, s.(frames := s.frames[..|s.frames| - 1]))
    case Jump(d, v, cause, s) => if d == |f| + 1 then Done(v, s.(frames := f)) else b
    case _ => b
  }

  function MakeClosure(args: Ptr, env: Ptr, st: State): (r: Outcome)
    ensures Kept(st.frames, r)
  {
    var rest := Drop(args, 2, st);
    var formals := Car(args, st);
    var one := Nth(args, 1, st);
    if !rest.Done? then rest
    else if !formals.Done? then formals
    else if !one.Done? then one
    else
      var many := Cdr(args, st);
      var p := |st.mem|;
      if rest.v == 0 then Done(p + 1, st.(mem := st.mem + [Cons(formals.v, one.v), Closure(env, p)]))
      else if !many.Done? then many
      else Done(p + 2, st.(mem := st.mem + [Cons(BEGIN, many.v), Cons(formals.v, p), Closure(env, p + 1)]))
  }

  /** `siod_syntax_define`: (define (f . formals) . body) becomes a lambda. */
  function SyntaxDefine(k: nat, args: Ptr, st: State): (r: Outcome)
    ensures Kept(st.frames, r)
  {
    if k == 0 then Timeout
    else
      var x := Car(args, st);
      if !x.Done? then x
      else if IsSymbol(x.v, st) then Done(args, st)
      else
        var name, formals, body := Car(x.v, st), Cdr(x.v, st), Cdr(args, st);
        if !formals.Done? then formals
        else if !body.Done? then body
        else if !name.Done? then name
        else
          var p := |st.mem|;
          SyntaxDefine(k - 1, p + 3, st.(mem := st.mem
            + [Cons(formals.v, body.v), Cons(LAMBDA, p), Cons(p + 1, 0), Cons(name.v, p + 2)]))
  }

  function EvalDefine(P: Primitives, k: nat, args: Ptr, env: Ptr, st: State): (r: Outcome)
    requires Disciplined(P)
    ensures Kept(st.frames, r)
    decreases k
  {
    if k == 0 then Timeout
    else
      var d := SyntaxDefine(k - 1, args, st);
      if !d.Done? then d
      else
        var name, x := Car(d.v, d.st), Nth(d.v, 1, d.st);
        if !name.Done? then name
        else if !IsSymbol(name.v, d.st) then Err("wta(non-symbol) to define", name.v, d.st)
        else if !x.Done? then x
        else
          var v := Eval(P, k - 1, x.v, env, d.st);
          if v.Done? then DefineVar(k - 1, name.v, v.v, env, v.st) else v
  }

  /** Assign an existing variable, or add one to the innermost frame. */
  function DefineVar(k: nat, x: Ptr, v: Ptr, env: Ptr, st: State): (r: Outcome)
    ensures Kept(st.frames, r)
  {
    var r := Lookup(k, x, env, st);
    if !r.Done? then r
    else if r.v != 0 then Done(v, SetCar(r.v, v, r.st))
    else if env == 0 then Done(v, st.(globals := st.globals[x := v]))
    else
      var frame := Car(env, st);
      if !frame.Done? then frame
      else if !IsCons(frame.v, st) then Err("wta to setcar", frame.v, st)
      else
        var p, c := |st.mem|, st.mem[frame.v];
        Done(v, st.(mem := (st.mem + [Cons(x, c.car), Cons(v, c.cdr)])[frame.v := Cons(p, p + 1)]))
  }

  /** The msubrs. */
  function EvalTail(P: Primitives, k: nat, tail: TailCode, l: Ptr, env: Ptr, st: State): (r: Tail)
    requires Disciplined(P)
    ensures match r case Again(_, _, s) => s.frames == st.frames case Stop(o) => Kept(st.frames, o)
    decreases k
  {
    if k == 0 then Stop(Timeout)
    else
      match tail
      case If =>
        var x := Car(l, st);
        if !x.Done? then Stop(x)
        else
          var c := Eval(P, k - 1, x.v, env, st);
          if !c.Done? then Stop(c)
          else
            var branch := Nth(l, if c.v != 0 then 1 else 2, c.st);
            if branch.Done? then Again(branch.v, env, c.st) else Stop(branch)
      case And =>
        if l == 0 then Stop(Done(T, st)) else EvalSequence(P, k - 1, And, l, env, st)
      case LetInternal =>
        var inits, formals := Nth(l, 1, st), Car(l, st);
        if !inits.Done? then Stop(inits)
        else if !formals.Done? then Stop(formals)
        else
          var a := EvalArgs(P, k - 1, inits.v, env, st);
          if !a.Done? then Stop(a)
          else
            var e := Extend(a.v, formals.v, env, a.st);
            var body := Nth(l, 2, e.st);
            if body.Done? then Again(body.v, e.v, e.st) else Stop(body)
      case _ => EvalSequence(P, k - 1, tail, l, env, st)
  }

  /** The loop of `begin`, `or` and `and`: all forms but the last. */
  function EvalSequence(P: Primitives, k: nat, tail: TailCode, l: Ptr, env: Ptr, st: State): (r: Tail)
    requires Disciplined(P)
    ensures match r case Again(_, _, s) => s.frames == st.frames case Stop(o) => Kept(st.frames, o)
    decreases k
  {
    if k == 0 then Stop(Timeout)
    else
      var next, x := Cdr(l, st), Car(l, st);
      if !next.Done? then Stop(next)
      else if !x.Done? then Stop(x)
      else if next.v == 0 then Again(x.v, env, st)
      else
        var v := Eval(P, k - 1, x.v, env, st);
        if !v.Done? then Stop(v)
        else if (tail == Or && v.v != 0) || (tail == And && v.v == 0) then Stop(v)
        else EvalSequence(P, k - 1, tail, next.v, env, v.st)
  }

  function Arg(args: seq<Ptr>, i: nat): Ptr {
    if i < |args| then args[i] else 0
  }

  /** Call the C function of a subr. */
  function CallFn(P: Primitives, k: nat, fn: Fn, args: seq<Ptr>, st: State): (r: Outcome)
    requires Disciplined(P)
    ensures Kept(st.frames, r)
  {
    match fn
    case LetMacro => ExpandLet(k, Arg(args, 0), st)
    case LetStarMacro => ExpandLetStar(Arg(args, 0), st)
    case LetrecMacro => ExpandLetrec(k, Arg(args, 0), st)
    case Throw => ThrowTo(Arg(args, 0), Arg(args, 1), st)
    case Other(id) => P(id, args, st)
  }

  // ---- The let macros ---------------------------------------------------------------

  /** The first loop of `siod_let_macro`: names and inits, pushed in front of `fl` and `al`;
      the result pairs the two lists up. */
  function SplitBindings(k: nat, p: Ptr, fl: Ptr, al: Ptr, st: State): (r: Values)
    ensures match r case Values(_, _, s) => s.frames == st.frames case NoValues(o) => Kept(st.frames, o)
    ensures r.NoValues? ==> !r.o.Done?
    ensures r.Values? ==> |r.vs| == 2
  {
    if p == 0 then Values([fl, al], 0, st)
    else if k == 0 then NoValues(Timeout)
    else
      var b, next := Car(p, st), Cdr(p, st);
      if !b.Done? then NoValues(b)
      else if !next.Done? then NoValues(next)
      else
        var n := |st.mem|;
        if IsSymbol(b.v, st) then
          SplitBindings(k - 1, next.v, n, n + 1, st.(mem := st.mem + [Cons(b.v, fl), Cons(0, al)]))
        else
          var name, init := Car(b.v, st), Nth(b.v, 1, st);
          if !name.Done? then NoValues(name)
          else if !init.Done? then NoValues(init)
          else SplitBindings(k - 1, next.v, n, n + 1, st.(mem := st.mem + [Cons(name.v, fl), Cons(init.v, al)]))
  }

  /** `siod_reverse` */
  function Reverse(k: nat, l: Ptr, onto: Ptr, st: State): (r: Outcome)
    ensures Kept(st.frames, r)
  {
    if l == 0 then Done(onto, st)
    else if k == 0 then Timeout
    else
      var x, next := Car(l, st), Cdr(l, st);
      if !x.Done? then x
      else if !next.Done? then next
      else Reverse(k - 1, next.v, |st.mem|, Alloc(Cons(x.v, onto), st))
  }

  /** `siod_let_macro` */
  function ExpandLet(k: nat, form: Ptr, st: State): (r: Outcome)
    ensures Kept(st.frames, r)
  {
    var bindings, body := Nth(form, 1, st), Drop(form, 2, st);
    if !bindings.Done? then bindings
    else if !body.Done? then body
    else
      var lists := SplitBindings(k, bindings.v, 0, 0, st);
      if lists.Values? then FinishLet(k, form, body.v, lists.vs[0], lists.vs[1], lists.st) else lists.o
  }

  /** The rest of it: the body as one form, both lists reversed, the form rewritten. */
  function FinishLet(k: nat, form: Ptr, body: Ptr, fl: Ptr, al: Ptr, st: State): (r: Outcome)
    ensures Kept(st.frames, r)
  {
    var more, one := Cdr(body, st), Car(body, st);
    if !more.Done? then more
    else if !one.Done? then one
    else
      var b := if more.v == 0 then one else NewCons(BEGIN, body, st);
      var inits := Reverse(k, al, 0, b.st);
      if !inits.Done? then inits
      else
        var names := Reverse(k, fl, 0, inits.st);
        if !names.Done? then names
        else
          var p, s := |names.st.mem|, names.st;
          Rewrite(form, LET_INTERNAL, p + 2,
                  s.(mem := s.mem + [Cons(b.v, 0), Cons(inits.v, p), Cons(names.v, p + 1)]))
  }

  /** The end of each macro: the tail and then the head of the form are replaced, and the
      form is the value. */
  function Rewrite(form: Ptr, head: Ptr, rest: Ptr, st: State): (r: Outcome)
    ensures Kept(st.frames, r)
  {
    if !IsCons(form, st) then Err("wta to setcdr", form, st)
    else Done(form, st.(mem := st.mem[form := Cons(head, rest)]))
  }

  /** `siod_letstar_macro`: peel one binding off, leaving the others to an inner let*. */
  function ExpandLetStar(form: Ptr, st: State): (r: Outcome)
    ensures Kept(st.frames, r)
  {
    var bindings := Nth(form, 1, st);
    if !bindings.Done? then bindings
    else
      var others, first, body := Cdr(bindings.v, st), Car(bindings.v, st), Drop(form, 2, st);
      if !others.Done? then others
      else if !body.Done? then body
      else if !first.Done? then first
      else if bindings.v != 0 && others.v != 0 then
        var p := |st.mem|;
        Rewrite(form, LET, p + 4, st.(mem := st.mem
          + [Cons(others.v, body.v), Cons(LET_STAR, p), Cons(p + 1, 0), Cons(first.v, 0), Cons(p + 3, p + 2)]))
      else if !IsCons(form, st) then Err("wta to setcar", form, st)
      else Done(form, SetCar(form, LET, st))
  }

  /** The loop of `siod_letrec_macro`. */
  function SplitLetrec(k: nat, l: Ptr, letb: Ptr, setb: Ptr, st: State): (r: Values)
    ensures match r case Values(_, _, s) => s.frames == st.frames case NoValues(o) => Kept(st.frames, o)
    ensures r.NoValues? ==> !r.o.Done?
    ensures r.Values? ==> |r.vs| == 2
  {
    if l == 0 then Values([letb, setb], 0, st)
    else if k == 0 then NoValues(Timeout)
    else
      var b, next := Car(l, st), Cdr(l, st);
      if !b.Done? then NoValues(b)
      else if !next.Done? then NoValues(next)
      else
        var name, init := Car(b.v, st), Nth(b.v, 1, st);
        if !name.Done? then NoValues(name)
        else if !init.Done? then NoValues(init)
        else
          var p := |st.mem|;
          SplitLetrec(k - 1, next.v, p + 1, p + 5, st.(mem := st.mem
            + [Cons(name.v, 0), Cons(p, letb),
               Cons(init.v, 0), Cons(name.v, p + 2), Cons(SET, p + 3), Cons(p + 4, setb)]))
  }

  /** `siod_letrec_macro` */
  function ExpandLetrec(k: nat, form: Ptr, st: State): (r: Outcome)
    ensures Kept(st.frames, r)
  {
    var bindings, body := Nth(form, 1, st), Drop(form, 2, st);
    if !bindings.Done? then bindings
    else if !body.Done? then body
    else
      var lists := SplitLetrec(k, bindings.v, 0, body.v, st);
      if lists.NoValues? then lists.o
      else
        var p := |lists.st.mem|;
        Rewrite(form, LET, p, Alloc(Cons(lists.vs[0], lists.vs[1]), lists.st))
  }

  // ---- What a catch does with a throw ---------------------------------------------------

  /** A jump out of the body of a catch lands there exactly when the tag of the catch is
      the thrown one, `errobj` for an error, or `all`; it then gives the thrown value with
      the frames as they were.  Otherwise it goes on to the innermost outer frame. */
  lemma JumpLandsExactlyHere(tag: Ptr, b: Outcome, f: seq<Ptr>)
    requires b.Jump? && Kept(f + [tag], b)
    ensures Catches(tag, b.cause) ==> Land(f, b) == Done(b.v, b.st.(frames := f))
    ensures !Catches(tag, b.cause) ==> Land(f, b) == b && b.frame == Innermost(f, b.cause) > 0
  {
    assert (f + [tag])[|f|] == tag;
    assert (f + [tag])[..|f|] == f;
  }

  /** At top level no jump is left over: a program finishes with no frames, runs out of
      steps, or an error reaches the top level. */
  lemma TopLevel(P: Primitives, k: nat, x: Ptr, env: Ptr, st: State)
    requires Disciplined(P) && st.frames == []
    ensures var r := Eval(P, k, x, env, st);
            r.Quit? || r.Timeout? || (r.Done? && r.st.frames == [])
  {
  }
}
