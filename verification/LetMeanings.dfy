/** The meaning of whole `let*` and `letrec` forms (src/slib.c:1744-1747, 1940-1986): one
    binding after the other, each in the scope of those before it, and assignments in one
    new frame, the last binding first. */
module LetMeanings {
  import opened Application
  import opened Environments
  import opened Evaluator
  import opened LetForms
  import opened Steps

  /** The names that the rewritten forms rely on. */
  predicate Syntactic(x: Ptr) {
    x == LET || x == LET_STAR || x == LETREC || x == LET_INTERNAL || x == SET || x == BEGIN
  }

  predicate Plain(names: seq<Ptr>) {
    forall i :: 0 <= i < |names| ==> !Syntactic(names[i])
  }

  // ---- One more frame ------------------------------------------------------------------

  /** `e` is `env` with one more frame, in `s`, which is `st` with more memory; the cells
      of the values are new. */
  predicate Framed(e: Ptr, names: seq<Ptr>, vs: seq<Ptr>, env: Ptr, st: State, s: State) {
    && Grows(st, s) && e >= |st.mem| && IsCons(e, s) && s.mem[e].cdr == env
    && var f := s.mem[e].car;
       && f >= |st.mem| && IsCons(f, s)
       && ListOf(s.mem[f].car, names, s) && ListFrom(s.mem[f].cdr, vs, |st.mem|, s)
  }

  /** A list of the values `vs` in cells of rising addresses from `lo` up to `hi`. */
  predicate Slots(l: Ptr, vs: seq<Ptr>, lo: nat, hi: nat, st: State)
    decreases |vs|
  {
    if vs == [] then l == 0
    else lo <= l < hi && IsCons(l, st) && st.mem[l].car == vs[0] && Slots(st.mem[l].cdr, vs[1..], l + 1, hi, st)
  }

  lemma {:induction false} SlotsList(l: Ptr, vs: seq<Ptr>, lo: nat, hi: nat, base: nat, st: State, s: State)
    requires Slots(l, vs, lo, hi, st) && base <= lo && hi <= |st.mem| <= |s.mem|
    requires forall q :: lo <= q < hi ==> s.mem[q] == st.mem[q]
    ensures Slots(l, vs, lo, hi, s) && ListFrom(l, vs, base, s)
    decreases |vs|
  {
    if vs != [] {
      SlotsList(st.mem[l].cdr, vs[1..], l + 1, hi, base, st, s);
    }
  }

  lemma {:induction false} SlotsWider(l: Ptr, vs: seq<Ptr>, lo: nat, hi: nat, lo': nat, hi': nat, st: State)
    requires Slots(l, vs, lo, hi, st) && lo' <= lo && hi <= hi'
    ensures Slots(l, vs, lo', hi', st)
    decreases |vs|
  {
    if vs != [] {
      SlotsWider(st.mem[l].cdr, vs[1..], l + 1, hi, l + 1, hi', st);
    }
  }

  lemma {:induction false} NotInFrame(k: nat, x: Ptr, fl: Ptr, al: Ptr, names: seq<Ptr>, vs: seq<Ptr>, frame: Ptr, st: State)
    requires ListOf(fl, names, st) && ListOf(al, vs, st) && |names| == |vs| < k && x !in names
    ensures LookupFrame(k, x, fl, al, frame, st) == Done(0, st)
    decreases |names|
  {
    if names != [] {
      NotInFrame(k - 1, x, st.mem[fl].cdr, st.mem[al].cdr, names[1..], vs[1..], frame, st);
    }
  }

  /** A name the new frame does not bind is seen through it. */
  lemma SeenPast(j: nat, x: Ptr, e: Ptr, names: seq<Ptr>, vs: seq<Ptr>, env: Ptr, st: State, s: State)
    requires Framed(e, names, vs, env, st, s) && |names| == |vs| && x !in names
    requires j >= |names| + 2 && Lookup(j - 1, x, env, s) == Done(0, s)
    ensures Lookup(j, x, e, s) == Done(0, s)
  {
    var f := s.mem[e].car;
    ListFromStays(s.mem[f].cdr, vs, |st.mem|, s, s);
    NotInFrame(j - 1, x, s.mem[f].car, s.mem[f].cdr, names, vs, f, s);
    LookupStep(j, x, e, s);
  }

  lemma SeenThrough(n: nat, j: nat, x: Ptr, e: Ptr, names: seq<Ptr>, vs: seq<Ptr>, env: Ptr, st: State, s: State)
    requires Framed(e, names, vs, env, st, s) && NoDangling(st) && |names| == |vs|
    requires Lookup(n, x, env, st) == Done(0, st) && x !in names && j >= n + |names| + 2
    ensures Lookup(j, x, e, s) == Done(0, s)
  {
    hide NoDangling, Lookup, Framed;
    FrameGrowth(e, names, vs, env, st, s);
    MissStays(n, j - 1, x, env, st, s);
    SeenPast(j, x, e, names, vs, env, st, s);
  }

  lemma {:induction false} LookupMost(k: nat, j: nat, x: Ptr, env: Ptr, st: State)
    requires k <= j
    ensures Settled(Lookup(k, x, env, st), Lookup(j, x, env, st))
    decreases j - k
  {
    hide Lookup;
    if k < j {
      LookupMore(k, x, env, st);
      LookupMost(k + 1, j, x, env, st);
    }
  }

  // ---- Bodies ------------------------------------------------------------------------

  /** The forms of a list one after the other, with `m` steps for the last. */
  function InTurn(P: Primitives, m: nat, k: nat, l: Ptr, env: Ptr, st: State): Outcome
    requires Disciplined(P)
  {
    var t := EvalSequence(P, k, Begin, l, env, st);
    if t.Again? then Eval(P, m, t.x, t.env, t.st) else t.o
  }

  /** A body: no form, one, or several in turn. */
  function BodyMeaning(P: Primitives, k: nat, body: Ptr, env: Ptr, st: State): Outcome
    requires Disciplined(P)
  {
    if !IsCons(body, st) then Eval(P, k, 0, env, st)
    else if st.mem[body].cdr == 0 then Eval(P, k, st.mem[body].car, env, st)
    else if k < 3 then Timeout
    else InTurn(P, k - 2, k - 3, body, env, st)
  }

  lemma BeginStep(P: Primitives, k: nat, n: nat, b: Ptr, l: Ptr, env: Ptr, st: State)
    requires Disciplined(P) && Booted(st) && Lookup(n, BEGIN, env, st) == Done(0, st) && k >= n + 4
    requires IsCons(b, st) && st.mem[b] == Cons(BEGIN, l)
    ensures Eval(P, k, b, env, st) == InTurn(P, k - 2, k - 3, l, env, st)
  {
    hide EvalSequence, Lookup, MacroBound;
    LookupMost(n, k - 1, BEGIN, env, st);
    var f := st.globals[BEGIN];
    assert Variable(k - 1, BEGIN, env, st) == Done(f, st);
    assert Eval(P, k, b, env, st) == Call(P, k - 1, f, b, env, st);
    assert EvalTail(P, k - 2, Begin, l, env, st) == EvalSequence(P, k - 3, Begin, l, env, st);
  }

  lemma BodyMeans(P: Primitives, k: nat, n: nat, b: Ptr, body: Ptr, env: Ptr, st: State)
    requires Disciplined(P) && Booted(st) && Lookup(n, BEGIN, env, st) == Done(0, st) && k >= n + 4
    requires BodyIs(b, body, st)
    ensures Eval(P, k, b, env, st) == BodyMeaning(P, k, body, env, st)
  {
    hide Booted, Eval, InTurn, Lookup;
    if body != 0 && st.mem[body].cdr != 0 {
      BeginStep(P, k, n, b, body, env, st);
    }
  }

  // ---- One init ------------------------------------------------------------------------

  /** The tail of a rewritten form, read bit by bit while it is evaluated, is in `t` what it
      is in `s`. */
  predicate SpineKept(form: Ptr, s: State, t: State) {
    && IsCons(form, s) && IsCons(s.mem[form].cdr, s)
    && var l := s.mem[s.mem[form].cdr];
       && IsCons(l.cdr, s) && IsCons(s.mem[l.cdr].cdr, s)
       && |s.mem| <= |t.mem|
       && KeptCell(s.mem[form].cdr, s, t) && KeptCell(l.car, s, t) && KeptCell(l.cdr, s, t)
       && KeptCell(s.mem[l.cdr].car, s, t) && KeptCell(s.mem[l.cdr].cdr, s, t)
  }

  predicate KeptCell(q: Ptr, s: State, t: State) {
    q < |s.mem| <= |t.mem| ==> t.mem[q] == s.mem[q]
  }

  lemma ListOfOne(l: Ptr, v: Ptr, st: State)
    requires ListOf(l, [v], st)
    ensures IsCons(l, st) && st.mem[l] == Cons(v, 0)
  {
    assert [v][1..] == [];
  }

  /** With one binding, the meaning of the rewritten form is to evaluate the init and then
      the body where the name is bound to the value. */
  lemma OneInit(P: Primitives, k: nat, form: Ptr, name: Ptr, init: Ptr, b: Ptr, env: Ptr, s: State) returns (e: Ptr, t: State)
    requires Disciplined(P) && InternalForm(form, [name], [init], b, s) && k >= 4
    ensures var v := Eval(P, k - 2, init, env, s);
            if !v.Done? then LetMeaning(P, k, form, env, s) == v
            else SpineKept(form, s, v.st) ==>
                   && BindOne(s.mem[s.mem[form].cdr].car, v.v, env, v.st) == Done(e, t)
                   && Framed(e, [name], [v.v], env, v.st, t) && LetMeaning(P, k, form, env, s) == Eval(P, k, b, e, t)
                   && (NoDangling(v.st) && v.v < |v.st.mem| && (env == 0 || IsCons(env, v.st)) ==> NoDangling(t))
  {
    hide Eval, ListOf, ListFrom, NoDangling;
    var l := s.mem[form].cdr;
    var fl, al := s.mem[l].car, s.mem[s.mem[l].cdr].car;
    NthOne(l, s);
    ListOfOne(al, init, s);
    ListOfOne(fl, name, s);
    var v := Eval(P, k - 2, init, env, s);
    e, t := 0, s;
    if v.Done? && SpineKept(form, s, v.st) {
      var p := |v.st.mem|;
      var first := NewCons(v.v, 0, v.st);
      assert Cdr(al, first.st) == Done(0, first.st);
      assert EvalArgs(P, k - 1, al, env, s) == Done(p, first.st);
      var x := Extend(p, fl, env, first.st);
      e, t := x.v, x.st;
      LetTail(l, b, s, t);
      OneIsListFrom(p, v.v, p, t);
      OneIsList(name, fl, t);
      if NoDangling(v.st) && v.v < |v.st.mem| && (env == 0 || IsCons(env, v.st)) {
        NewFrameSound(fl, v.v, env, v.st);
      }
    }
  }

  lemma OneIsListFrom(p: Ptr, v: Ptr, base: nat, st: State)
    requires IsCons(p, st) && st.mem[p] == Cons(v, 0) && p >= base
    ensures ListFrom(p, [v], base, st)
  {
    assert [v][1..] == [];
  }

  lemma LetTail(l: Ptr, b: Ptr, s: State, t: State)
    requires IsCons(l, s) && IsCons(s.mem[l].cdr, s) && IsCons(s.mem[s.mem[l].cdr].cdr, s)
    requires s.mem[s.mem[s.mem[l].cdr].cdr].car == b && |s.mem| <= |t.mem|
    requires t.mem[l] == s.mem[l] && t.mem[s.mem[l].cdr] == s.mem[s.mem[l].cdr]
    requires t.mem[s.mem[s.mem[l].cdr].cdr] == s.mem[s.mem[s.mem[l].cdr].cdr]
    ensures Nth(l, 2, t) == Done(b, t)
  {
    DropTwo(l, t);
  }

  /** With no binding at all there still is a new, empty, frame. */
  lemma NoInit(P: Primitives, k: nat, form: Ptr, b: Ptr, env: Ptr, s: State) returns (e: Ptr, t: State)
    requires Disciplined(P) && InternalForm(form, [], [], b, s) && k >= 2
    ensures Framed(e, [], [], env, s, t) && LetMeaning(P, k, form, env, s) == Eval(P, k, b, e, t)
  {
    hide Eval;
    var l := s.mem[form].cdr;
    assert EvalArgs(P, k - 1, 0, env, s) == Done(0, s);
    var x := Extend(0, 0, env, s);
    e, t := x.v, x.st;
    LetTail(l, b, s, t);
  }

  // ---- let* ------------------------------------------------------------------------------

  /** A `let*` form, as it was written or as its evaluations have left it: rewritten, and
      perhaps the rest of it too. */
  ghost predicate StarForm(form: Ptr, names: seq<Ptr>, inits: seq<Ptr>, body: Ptr, st: State)
    decreases |names|
  {
    && |names| == |inits|
    && (BindingForm(form, LET_STAR, names, inits, body, st)
        || exists b: Ptr ::
             && InternalForm(form, names[..FirstOf(names)], inits[..FirstOf(names)], b, st)
             && if |names| <= 1 then BodyIs(b, body, st) else StarForm(b, names[1..], inits[1..], body, st))
  }

  /** How many of the bindings the rewritten form has itself. */
  function FirstOf(names: seq<Ptr>): nat {
    if names == [] then 0 else 1
  }

  /** The state in which the form is a rewritten one: as the macros leave it, or at once. */
  predicate MadeInternal(j: nat, form: Ptr, st: State, s: State) {
    if IsCons(form, st) && st.mem[form].car == LET_STAR then ByLetStar(j, form, st, s) && Rewritten(form, st, s) else s == st
  }

  /** The steps left for the rewritten form. */
  function StepsLeft(k: nat, form: Ptr, st: State): nat
    requires k >= 8
  {
    if IsCons(form, st) && st.mem[form].car == LET_STAR then k - 6 else k - 2
  }

  /** Evaluating the first init of the rewritten `let*` form has left alone what is still to
      be evaluated, and the bindings that evaluation relies on. */
  ghost predicate LeftAlone(n: nat, form: Ptr, b: Ptr, names: seq<Ptr>, inits: seq<Ptr>, body: Ptr, env: Ptr, s: State, v: Outcome)
    requires 0 < |names| == |inits| && v.Done?
  {
    && SpineKept(form, s, v.st) && v.v < |v.st.mem| && NoDangling(v.st) && Booted(v.st)
    && if |names| == 1 then BodyIs(b, body, v.st) && Lookup(n, BEGIN, env, v.st) == Done(0, v.st)
       else StarForm(b, names[1..], inits[1..], body, v.st) && Untouched(n, b, env, v.st)
  }

  /** A cell for the value, and a frame that binds the formals `fl` to it. */
  function BindOne(fl: Ptr, v: Ptr, env: Ptr, st: State): Outcome {
    Extend(|st.mem|, fl, env, NewCons(v, 0, st).st)
  }

  /** The outcome `r` of a `let*` form in `st`, bindings taken in sequence.  In the state `s`
      where it is rewritten, with nothing else changed, the first init is evaluated in the
      environment of the form; where its name is bound in a frame of its own the rest follows
      in the same way; in the last of these environments, the body.  (An init may rewrite the
      rest of the form, and then anything can happen.) */
  ghost predicate InSequence(P: Primitives, k: nat, n: nat, form: Ptr, names: seq<Ptr>, inits: seq<Ptr>, body: Ptr, env: Ptr,
                             st: State, r: Outcome)
    requires Disciplined(P) && 0 < |names| == |inits|
    decreases |names|
  {
    k >= 8 && exists s: State, b: Ptr ::
      && MadeInternal(k - 6, form, st, s) && InternalForm(form, [names[0]], [inits[0]], b, s)
      && StarForm(form, names, inits, body, s)
      && var j := StepsLeft(k, form, st);
         var v := Eval(P, j - 2, inits[0], env, s);
         if !v.Done? then r == v
         else LeftAlone(n, form, b, names, inits, body, env, s, v) ==>
           var x := BindOne(s.mem[s.mem[form].cdr].car, v.v, env, v.st);
           && x.Done? && Framed(x.v, [names[0]], [v.v], env, v.st, x.st)
           && if |names| == 1 then r == BodyMeaning(P, j, body, x.v, x.st)
              else InSequence(P, j, n + 3, b, names[1..], inits[1..], body, x.v, x.st, r)
  }

  lemma EnvThere(n: nat, x: Ptr, env: Ptr, st: State)
    requires Lookup(n, x, env, st) == Done(0, st)
    ensures env == 0 || IsCons(env, st)
  {
  }

  lemma NewFrameSound(fl: Ptr, v: Ptr, env: Ptr, st: State)
    requires NoDangling(st) && v < |st.mem| && fl < |st.mem| && (env == 0 || IsCons(env, st))
    ensures NoDangling(Extend(|st.mem|, fl, env, NewCons(v, 0, st).st).st)
  {
  }

  lemma UntouchedThrough(n: nat, form: Ptr, e: Ptr, name: Ptr, v: Ptr, env: Ptr, st: State, s: State)
    requires Untouched(n, form, env, st) && Framed(e, [name], [v], env, st, s) && NoDangling(st)
    requires !Syntactic(name) && IsCons(form, st) && Syntactic(st.mem[form].car)
    ensures Untouched(n + 3, form, e, s)
  {
    hide Lookup, Touched, NoDangling, ListOf, ListFrom;
    SeenThrough(n, n + 3, LET, e, [name], [v], env, st, s);
    SeenThrough(n, n + 3, LET_STAR, e, [name], [v], env, st, s);
    SeenThrough(n, n + 3, LETREC, e, [name], [v], env, st, s);
    SeenThrough(n, n + 3, LET_INTERNAL, e, [name], [v], env, st, s);
    SeenThrough(n, n + 3, SET, e, [name], [v], env, st, s);
    SeenThrough(n, n + 3, BEGIN, e, [name], [v], env, st, s);
    TouchedKept(n, n + 2, LET, env, form, st, s);
    FrameTouched(n + 3, form, e, name, v, env, st, s);
  }

  lemma FreshOne(l: Ptr, v: Ptr, base: nat, st: State)
    requires ListFrom(l, [v], base, st)
    ensures l >= base && IsCons(l, st) && st.mem[l] == Cons(v, 0)
  {
    assert [v][1..] == [];
  }

  lemma FrameTouched(j: nat, form: Ptr, e: Ptr, name: Ptr, v: Ptr, env: Ptr, st: State, s: State)
    requires Framed(e, [name], [v], env, st, s) && !Syntactic(name) && IsCons(form, st) && Syntactic(st.mem[form].car)
    requires j >= 3 && form !in Touched(j - 1, env, s)
    ensures form !in Touched(j, e, s)
  {
    hide ListOf, ListFrom;
    var f := s.mem[e].car;
    var fl, al := s.mem[f].car, s.mem[f].cdr;
    ListOfOne(fl, name, s);
    FreshOne(al, v, |st.mem|, s);
    assert s.mem[fl].cdr == 0 && s.mem[al].cdr == 0;
    assert FormalCells(j - 2, 0, s) == {} && ActualCells(j - 2, 0, 0, s) == {};
    assert FormalCells(j - 1, fl, s) == {fl};
    assert ActualCells(j - 1, fl, al, s) == {al};
  }

  lemma BootedGrows(st: State, s: State)
    requires Booted(st) && Grows(st, s)
    ensures Booted(s)
  {
  }

  lemma {:induction false} InternalStays(form: Ptr, names: seq<Ptr>, inits: seq<Ptr>, b: Ptr, st: State, s: State)
    requires InternalForm(form, names, inits, b, st) && Grows(st, s)
    ensures InternalForm(form, names, inits, b, s)
  {
    hide ListOf;
    var l := st.mem[form].cdr;
    ListStays(st.mem[l].car, names, st, s);
    ListStays(st.mem[st.mem[l].cdr].car, inits, st, s);
  }

  /** Growth of memory leaves a `let*` form what it is. */
  lemma {:induction false} StarStays(form: Ptr, names: seq<Ptr>, inits: seq<Ptr>, body: Ptr, st: State, s: State)
    requires StarForm(form, names, inits, body, st) && Grows(st, s)
    ensures StarForm(form, names, inits, body, s)
    decreases |names|
  {
    hide BindingForm, InternalForm, BodyIs;
    if BindingForm(form, LET_STAR, names, inits, body, st) {
      FormStays(form, LET_STAR, names, inits, body, st, s);
    } else {
      var b :| && InternalForm(form, names[..FirstOf(names)], inits[..FirstOf(names)], b, st)
               && if |names| <= 1 then BodyIs(b, body, st) else StarForm(b, names[1..], inits[1..], body, st);
      InternalStays(form, names[..FirstOf(names)], inits[..FirstOf(names)], b, st, s);
      if |names| <= 1 {
        BodyGrows(b, body, st, s);
      } else {
        StarStays(b, names[1..], inits[1..], body, st, s);
      }
    }
  }

  lemma StarHead(form: Ptr, names: seq<Ptr>, inits: seq<Ptr>, body: Ptr, st: State)
    requires StarForm(form, names, inits, body, st)
    ensures |names| == |inits| && IsCons(form, st)
    ensures st.mem[form].car == LET_STAR <==> BindingForm(form, LET_STAR, names, inits, body, st)
    ensures Syntactic(st.mem[form].car)
  {
  }

  lemma StarOf(form: Ptr, names: seq<Ptr>, inits: seq<Ptr>, body: Ptr, b: Ptr, st: State)
    requires 0 < |names| == |inits| && InternalForm(form, [names[0]], [inits[0]], b, st)
    requires if |names| == 1 then BodyIs(b, body, st) else StarForm(b, names[1..], inits[1..], body, st)
    ensures StarForm(form, names, inits, body, st)
  {
    hide BindingForm, InternalForm, BodyIs;
    assert names[..1] == [names[0]] && inits[..1] == [inits[0]];
  }

  /** The rewritten form of a `let*` with bindings. */
  lemma StarInside(form: Ptr, names: seq<Ptr>, inits: seq<Ptr>, body: Ptr, st: State) returns (b: Ptr)
    requires names != [] && StarForm(form, names, inits, body, st) && !BindingForm(form, LET_STAR, names, inits, body, st)
    ensures |names| == |inits| && InternalForm(form, [names[0]], [inits[0]], b, st)
    ensures if |names| == 1 then BodyIs(b, body, st) else StarForm(b, names[1..], inits[1..], body, st)
  {
    hide BindingForm, InternalForm, BodyIs;
    assert names[..1] == [names[0]] && inits[..1] == [inits[0]];
    b :| && InternalForm(form, names[..1], inits[..1], b, st)
         && if |names| <= 1 then BodyIs(b, body, st) else StarForm(b, names[1..], inits[1..], body, st);
  }

  /** The rest of a `let*`, in the scope of the name just bound, is a `let*` again. */
  lemma RestReady(n: nat, form: Ptr, b: Ptr, names: seq<Ptr>, inits: seq<Ptr>, body: Ptr, env: Ptr, s: State, v: Outcome,
                  e: Ptr, t: State)
    requires 1 < |names| == |inits| && v.Done? && LeftAlone(n, form, b, names, inits, body, env, s, v)
    requires Framed(e, [names[0]], [v.v], env, v.st, t) && !Syntactic(names[0])
    ensures Booted(t) && StarForm(b, names[1..], inits[1..], body, t) && Untouched(n + 3, b, e, t)
  {
    hide Booted, StarForm, Untouched, NoDangling, Framed, SpineKept, Lookup;
    FrameGrowth(e, [names[0]], [v.v], env, v.st, t);
    BootedGrows(v.st, t);
    StarStays(b, names[1..], inits[1..], body, v.st, t);
    StarHead(b, names[1..], inits[1..], body, v.st);
    UntouchedThrough(n, b, e, names[0], v.v, env, v.st, t);
  }

  lemma FrameGrowth(e: Ptr, names: seq<Ptr>, vs: seq<Ptr>, env: Ptr, st: State, s: State)
    requires Framed(e, names, vs, env, st, s)
    ensures Grows(st, s)
  {
  }

  /** And the body in the scope of the last name. */
  lemma BodyReady(P: Primitives, k: nat, n: nat, form: Ptr, b: Ptr, names: seq<Ptr>, inits: seq<Ptr>, body: Ptr, env: Ptr,
                  s: State, v: Outcome, e: Ptr, t: State)
    requires Disciplined(P) && |names| == |inits| == 1 && v.Done? && LeftAlone(n, form, b, names, inits, body, env, s, v)
    requires Framed(e, [names[0]], [v.v], env, v.st, t) && !Syntactic(names[0]) && k >= n + 7
    ensures Eval(P, k, b, e, t) == BodyMeaning(P, k, body, e, t)
  {
    hide Booted, NoDangling, Framed, SpineKept, Lookup, Eval, BodyMeaning;
    FrameGrowth(e, [names[0]], [v.v], env, v.st, t);
    BootedGrows(v.st, t);
    SeenThrough(n, n + 3, BEGIN, e, [names[0]], [v.v], env, v.st, t);
    BodyMeans(P, k, n + 3, b, body, e, t);
  }

  /** The form goes on as a rewritten one. */
  lemma StarGoesOn(P: Primitives, k: nat, n: nat, form: Ptr, names: seq<Ptr>, inits: seq<Ptr>, body: Ptr, env: Ptr, st: State)
    returns (b: Ptr, s: State)
    requires Disciplined(P) && Booted(st) && NoDangling(st) && StarForm(form, names, inits, body, st)
    requires names != [] && Untouched(n, form, env, st) && k >= n + 16
    ensures |names| == |inits| && MadeInternal(k - 6, form, st, s) && InternalForm(form, [names[0]], [inits[0]], b, s)
    ensures StarForm(form, names, inits, body, s)
    ensures Eval(P, k, form, env, st) == LetMeaning(P, StepsLeft(k, form, st), form, env, s)
  {
    hide Eval, Booted, BindingForm, NoDangling, LetMeaning, Rewritten, Untouched, InternalForm, BodyIs, ByLetStar, StarForm;
    StarHead(form, names, inits, body, st);
    if BindingForm(form, LET_STAR, names, inits, body, st) {
      FormHead(form, LET_STAR, names, inits, body, st);
      if |names| == 1 {
        b, s := LetStarOfOne(P, k, n, form, names, inits, body, env, st);
        assert names == [names[0]] && inits == [inits[0]];
      } else {
        b, s := LetStarMeans(P, k, n, form, names, inits, body, env, st);
        StarAsWritten(b, names[1..], inits[1..], body, s);
      }
      StarOf(form, names, inits, body, b, s);
    } else {
      s := st;
      b := StarInside(form, names, inits, body, st);
      InternalAgain(P, k, n, form, [names[0]], [inits[0]], b, env, st);
    }
  }

  lemma StarAsWritten(form: Ptr, names: seq<Ptr>, inits: seq<Ptr>, body: Ptr, st: State)
    requires BindingForm(form, LET_STAR, names, inits, body, st)
    ensures StarForm(form, names, inits, body, st)
  {
    FormHead(form, LET_STAR, names, inits, body, st);
  }

  /** A rewritten form, whatever wrote it. */
  lemma InternalAgain(P: Primitives, k: nat, n: nat, form: Ptr, names: seq<Ptr>, inits: seq<Ptr>, b: Ptr, env: Ptr, st: State)
    requires Disciplined(P) && Booted(st) && InternalForm(form, names, inits, b, st) && Untouched(n, form, env, st) && k >= n + 6
    ensures Eval(P, k, form, env, st) == LetMeaning(P, k - 2, form, env, st)
  {
    InternalBound(st);
    hide Eval, Booted, InternalForm, LetMeaning, Lookup;
    LookupMost(n, k - 1, LET_INTERNAL, env, st);
    LetEachTime(P, k, n, form, names, inits, b, env, st);
  }

  /** Every evaluation of a `let*` form, the one that rewrites it and those that find it
      rewritten, means its inits and its body in sequence. */
  lemma {:induction false} LetStarInSequence(P: Primitives, k: nat, n: nat, form: Ptr, names: seq<Ptr>, inits: seq<Ptr>, body: Ptr,
                                             env: Ptr, st: State)
    requires Disciplined(P) && Booted(st) && NoDangling(st) && StarForm(form, names, inits, body, st)
    requires names != [] && Plain(names) && Untouched(n, form, env, st) && k >= n + 9 * |names| + 16
    ensures |names| == |inits|
    ensures InSequence(P, k, n, form, names, inits, body, env, st, Eval(P, k, form, env, st))
    decreases |names|
  {
    hide Eval, Booted, NoDangling, LetMeaning, Untouched, InternalForm, BodyIs, BodyMeaning, LeftAlone, Framed,
         SpineKept, BindOne, StarForm, MadeInternal;
    var b, s := StarGoesOn(P, k, n, form, names, inits, body, env, st);
    var j := StepsLeft(k, form, st);
    var e, t := OneInit(P, j, form, names[0], inits[0], b, env, s);
    var v := Eval(P, j - 2, inits[0], env, s);
    FormThere(form, names[0], inits[0], b, s);
    if v.Done? && LeftAlone(n, form, b, names, inits, body, env, s, v) {
      LeftParts(n, form, b, names, inits, body, env, s, v);
      if |names| == 1 {
        BodyReady(P, j, n, form, b, names, inits, body, env, s, v, e, t);
      } else {
        RestReady(n, form, b, names, inits, body, env, s, v, e, t);
        LetStarInSequence(P, j, n + 3, b, names[1..], inits[1..], body, e, t);
      }
    }
  }

  /** Without bindings a `let*` form means its body, in one new empty frame, whenever it is
      evaluated. */
  lemma LetStarOfNone(P: Primitives, k: nat, n: nat, form: Ptr, body: Ptr, env: Ptr, st: State)
    returns (e: Ptr, s: State, t: State)
    requires Disciplined(P) && Booted(st) && NoDangling(st) && StarForm(form, [], [], body, st)
    requires Untouched(n, form, env, st) && k >= n + 16
    ensures MadeInternal(k - 6, form, st, s) && Framed(e, [], [], env, s, t) && StarForm(form, [], [], body, s)
    ensures Eval(P, k, form, env, st) == BodyMeaning(P, StepsLeft(k, form, st), body, e, t)
  {
    hide Eval, BindingForm, NoDangling, LetMeaning, BodyIs, BodyMeaning, Framed, ByLetStar, Lookup, MacroBound, Touched, ListOf,
         Rewritten, StarForm;
    var b;
    StarHead(form, [], [], body, st);
    if BindingForm(form, LET_STAR, [], [], body, st) {
      FormHead(form, LET_STAR, [], [], body, st);
      b, s := LetStarOfOne(P, k, n, form, [], [], body, env, st);
    } else {
      s := st;
      b := NoneInside(form, body, st);
      InternalAgain(P, k, n, form, [], [], b, env, st);
      RewrittenSame(form, st);
    }
    NoneIsStar(form, body, b, s);
    e, t := NoInit(P, StepsLeft(k, form, st), form, b, env, s);
    FrameGrowth(e, [], [], env, s, t);
    GrowthRewrites(form, s, t);
    RewrittenTwice(form, st, s, t);
    MissKept(n, n + 1, BEGIN, env, form, st, t);
    SeenPast(n + 2, BEGIN, e, [], [], env, s, t);
    BootedKept(form, st, t);
    BodyGrows(b, body, s, t);
    BodyMeans(P, StepsLeft(k, form, st), n + 2, b, body, e, t);
  }

  lemma NoneInside(form: Ptr, body: Ptr, st: State) returns (b: Ptr)
    requires StarForm(form, [], [], body, st) && !BindingForm(form, LET_STAR, [], [], body, st)
    ensures InternalForm(form, [], [], b, st) && BodyIs(b, body, st)
  {
    hide BindingForm, InternalForm, BodyIs;
    var none: seq<Ptr> := [];
    assert none[..0] == none;
    b :| InternalForm(form, none[..FirstOf(none)], none[..FirstOf(none)], b, st) && BodyIs(b, body, st);
  }

  lemma NoneIsStar(form: Ptr, body: Ptr, b: Ptr, st: State)
    requires InternalForm(form, [], [], b, st) && BodyIs(b, body, st)
    ensures StarForm(form, [], [], body, st)
  {
    hide BindingForm, InternalForm, BodyIs;
    var none: seq<Ptr> := [];
    assert none[..0] == none;
  }

  lemma RewrittenSame(form: Ptr, st: State)
    requires IsCons(form, st)
    ensures Rewritten(form, st, st)
  {
  }

  lemma FormThere(form: Ptr, name: Ptr, init: Ptr, b: Ptr, s: State)
    requires InternalForm(form, [name], [init], b, s)
    ensures IsCons(form, s) && IsCons(s.mem[form].cdr, s)
  {
  }

  lemma LeftParts(n: nat, form: Ptr, b: Ptr, names: seq<Ptr>, inits: seq<Ptr>, body: Ptr, env: Ptr, s: State, v: Outcome)
    requires 0 < |names| == |inits| && v.Done? && LeftAlone(n, form, b, names, inits, body, env, s, v)
    ensures SpineKept(form, s, v.st) && v.v < |v.st.mem| && NoDangling(v.st) && (env == 0 || IsCons(env, v.st))
  {
    EnvThere(n, BEGIN, env, v.st);
  }

  /** An init that only adds to memory leaves the rest of the form alone. */
  lemma QuietInit(n: nat, form: Ptr, b: Ptr, names: seq<Ptr>, inits: seq<Ptr>, body: Ptr, env: Ptr, s: State, v: Outcome)
    requires 0 < |names| == |inits| && v.Done? && Grows(s, v.st) && NoDangling(v.st) && v.v < |v.st.mem|
    requires Booted(s) && NoDangling(s) && InternalForm(form, [names[0]], [inits[0]], b, s) && b != 0
    requires if |names| == 1 then BodyIs(b, body, s) && Lookup(n, BEGIN, env, s) == Done(0, s)
             else StarForm(b, names[1..], inits[1..], body, s) && Untouched(n, b, env, s)
    ensures LeftAlone(n, form, b, names, inits, body, env, s, v)
  {
    hide Booted, StarForm, Untouched, NoDangling, Lookup, ListOf;
    BootedGrows(s, v.st);
    if |names| == 1 {
      MissStays(n, n, BEGIN, env, s, v.st);
    } else {
      StarStays(b, names[1..], inits[1..], body, s, v.st);
      StarHead(b, names[1..], inits[1..], body, s);
      UntouchedKept(n, b, env, s, v.st);
    }
  }

  // ---- letrec ------------------------------------------------------------------------------

  /** Evaluate the init and set the variable. */
  function Assign(P: Primitives, j: nat, name: Ptr, init: Ptr, env: Ptr, st: State): Outcome
    requires Disciplined(P)
  {
    if j < 3 then Timeout
    else
      var v := Eval(P, j - 3, init, env, st);
      if v.Done? then SetVar(j - 3, name, v.v, env, v.st) else v
  }

  /** The assignments in order, and then the forms of the body; `m` steps for whichever
      comes last. */
  function AssignAll(P: Primitives, m: nat, k: nat, names: seq<Ptr>, inits: seq<Ptr>, body: Ptr, env: Ptr, st: State): Outcome
    requires Disciplined(P) && |names| == |inits|
    decreases |names|
  {
    if names == [] then InTurn(P, m, k, body, env, st)
    else if |names| == 1 && body == 0 then Assign(P, m, names[0], inits[0], env, st)
    else if k == 0 then Timeout
    else
      var r := Assign(P, k - 1, names[0], inits[0], env, st);
      if r.Done? then AssignAll(P, m, k - 1, names[1..], inits[1..], body, env, r.st) else r
  }

  /** `set!` is what it was at the start, in `env`. */
  predicate SetWorks(n: nat, env: Ptr, st: State) {
    && IsSymbol(SET, st) && SET in st.globals && 0 < st.globals[SET] < |st.mem|
    && st.mem[st.globals[SET]] == FSubr(SetQ) && Lookup(n, SET, env, st) == Done(0, st)
  }

  /** No init changes the assignments that are still to come, nor the meaning of `set!`:
      each assignment is there when its turn comes, and its name when it is read, after the
      init. */
  ghost predicate TextKept(P: Primitives, n: nat, m: nat, k: nat, p: Ptr, names: seq<Ptr>, inits: seq<Ptr>, body: Ptr, form: Ptr,
                           env: Ptr, st: State)
    requires Disciplined(P) && |names| == |inits|
    decreases |names|
  {
    names != [] ==>
      && SetForms(p, names, inits, body, form, st) && SetWorks(n, env, st)
      && var last := |names| == 1 && body == 0;
         var j := if last then m else if k > 0 then k - 1 else 0;
         j >= 3 ==>
           var v := Eval(P, j - 3, inits[0], env, st);
           v.Done? ==>
             && Car(st.mem[st.mem[p].car].cdr, v.st) == Done(names[0], v.st)
             && var r := SetVar(j - 3, names[0], v.v, env, v.st);
                (r.Done? && !last ==> TextKept(P, n, m, k - 1, st.mem[p].cdr, names[1..], inits[1..], body, form, env, r.st))
  }

  lemma SetStep(P: Primitives, n: nat, j: nat, x: Ptr, name: Ptr, init: Ptr, form: Ptr, env: Ptr, st: State)
    requires Disciplined(P) && SetForm(x, name, init, form, st) && SetWorks(n, env, st) && j >= n + 4
    requires var v := Eval(P, j - 3, init, env, st); v.Done? ==> Car(st.mem[x].cdr, v.st) == Done(name, v.st)
    ensures Eval(P, j, x, env, st) == Assign(P, j, name, init, env, st)
  {
    hide Lookup, SetVar, Car;
    LookupMost(n, j - 1, SET, env, st);
    var f, l := st.globals[SET], st.mem[x].cdr;
    assert Variable(j - 1, SET, env, st) == Done(f, st);
    assert Eval(P, j, x, env, st) == Call(P, j - 1, f, x, env, st);
    assert Call(P, j - 1, f, x, env, st) == EvalForm(P, j - 2, SetQ, l, env, st);
    SecondIs(l, init, st);
  }

  lemma SecondIs(l: Ptr, x: Ptr, st: State)
    requires IsCons(l, st) && IsCons(st.mem[l].cdr, st) && st.mem[st.mem[l].cdr].car == x
    ensures Nth(l, 1, st) == Done(x, st)
  {
    NthOne(l, st);
  }

  lemma SetFormsParts(p: Ptr, names: seq<Ptr>, inits: seq<Ptr>, body: Ptr, form: Ptr, st: State)
    requires 0 < |names| == |inits| && SetForms(p, names, inits, body, form, st)
    ensures IsCons(p, st) && SetForm(st.mem[p].car, names[0], inits[0], form, st)
    ensures |names| == 1 ==> st.mem[p].cdr == body
    ensures |names| > 1 ==> st.mem[p].cdr != 0
  {
  }

  /** Evaluating the list of assignments and body forms, one after the other. */
  lemma {:induction false} AssignsInTurn(P: Primitives, n: nat, m: nat, k: nat, p: Ptr, names: seq<Ptr>, inits: seq<Ptr>, body: Ptr,
                                         form: Ptr, env: Ptr, st: State)
    requires Disciplined(P) && |names| == |inits| && m >= n + 4 && k >= n + |names| + 5
    requires names == [] ==> p == body
    requires TextKept(P, n, m, k, p, names, inits, body, form, env, st)
    ensures InTurn(P, m, k, p, env, st) == AssignAll(P, m, k, names, inits, body, env, st)
    decreases |names|
  {
    hide Eval, SetForm, SetForms, SetWorks, Assign, SetVar;
    if names != [] {
      SetFormsParts(p, names, inits, body, form, st);
      var x := st.mem[p].car;
      if |names| == 1 && body == 0 {
        SetStep(P, n, m, x, names[0], inits[0], form, env, st);
        LastInTurn(P, m, k, p, env, st);
      } else {
        SetStep(P, n, k - 1, x, names[0], inits[0], form, env, st);
        NextInTurn(P, m, k, p, env, st);
        AssignIs(P, k - 1, names[0], inits[0], env, st);
        var r := Eval(P, k - 1, x, env, st);
        if r.Done? {
          AssignsInTurn(P, n, m, k - 1, st.mem[p].cdr, names[1..], inits[1..], body, form, env, r.st);
        }
      }
    }
  }

  lemma AssignIs(P: Primitives, j: nat, name: Ptr, init: Ptr, env: Ptr, st: State)
    requires Disciplined(P) && j >= 3
    ensures var v := Eval(P, j - 3, init, env, st);
            Assign(P, j, name, init, env, st) == if v.Done? then SetVar(j - 3, name, v.v, env, v.st) else v
  {
  }

  lemma LastInTurn(P: Primitives, m: nat, k: nat, p: Ptr, env: Ptr, st: State)
    requires Disciplined(P) && k > 0 && IsCons(p, st) && st.mem[p].cdr == 0
    ensures InTurn(P, m, k, p, env, st) == Eval(P, m, st.mem[p].car, env, st)
  {
    hide Eval;
  }

  lemma NextInTurn(P: Primitives, m: nat, k: nat, p: Ptr, env: Ptr, st: State)
    requires Disciplined(P) && k > 0 && IsCons(p, st) && st.mem[p].cdr != 0
    ensures var v := Eval(P, k - 1, st.mem[p].car, env, st);
            InTurn(P, m, k, p, env, st) == if v.Done? then InTurn(P, m, k - 1, st.mem[p].cdr, env, v.st) else v
  {
    hide Eval;
  }

  /** `siod_leval_args` on a list of NILs. */
  lemma {:induction false} MoreNils(P: Primitives, k: nat, last: Ptr, l: Ptr, all: Ptr, n: nat, env: Ptr, st0: State, st: State)
    requires Disciplined(P) && ListOf(l, Nils(n), st0) && Grows(st0, st) && k >= n + 2
    requires IsCons(last, st) && st.mem[last].cdr == 0 && last >= |st0.mem|
    ensures var r := MoreArgs(P, k, last, l, all, env, st);
            && r.Done? && Grows(st0, r.st) && |st.mem| <= |r.st.mem|
            && (forall q :: 0 <= q < |st.mem| && q != last ==> r.st.mem[q] == st.mem[q])
            && IsCons(last, r.st) && r.st.mem[last].car == st.mem[last].car
            && Slots(r.st.mem[last].cdr, Nils(n), |st.mem|, |r.st.mem|, r.st)
    decreases n
  {
    hide Eval;
    if n > 0 {
      assert Nils(n)[1..] == Nils(n - 1);
      EvalNil(P, k - 1, env, st);
      var cell := |st.mem|;
      var s := SetCdr(last, cell, Alloc(Cons(0, 0), st));
      assert s.mem[l] == st0.mem[l] == st.mem[l] && st.mem[l].car == 0;
      MoreNils(P, k - 1, cell, st0.mem[l].cdr, all, n - 1, env, st0, s);
    }
  }

  lemma NilArgs(P: Primitives, k: nat, l: Ptr, n: nat, env: Ptr, st: State)
    requires Disciplined(P) && ListOf(l, Nils(n), st) && k >= n + 3
    ensures var r := EvalArgs(P, k, l, env, st);
            r.Done? && Grows(st, r.st) && Slots(r.v, Nils(n), |st.mem|, |r.st.mem|, r.st)
  {
    hide Eval, MoreArgs;
    if n > 0 {
      assert Nils(n)[1..] == Nils(n - 1);
      EvalNil(P, k - 1, env, st);
      var s := Alloc(Cons(0, 0), st);
      MoreNils(P, k - 1, |st.mem|, st.mem[l].cdr, l, n - 1, env, st, s);
    }
  }

  /** `e` is `env` with one more frame, whose cells follow those of `s`: the slots of the
      values `vs`, then the frame.  The list of formals is as old as `s`. */
  predicate Scope(e: Ptr, names: seq<Ptr>, vs: seq<Ptr>, env: Ptr, s: State, t: State) {
    && Grows(s, t) && IsCons(e, t) && t.mem[e].cdr == env
    && var f := t.mem[e].car;
       && |s.mem| <= f < e && IsCons(f, t)
       && ListOf(t.mem[f].car, names, s) && Slots(t.mem[f].cdr, vs, |s.mem|, f, t)
  }

  /** A form whose inits are all NIL binds its names to NIL in one new frame. */
  lemma NilFrame(P: Primitives, k: nat, form: Ptr, names: seq<Ptr>, b: Ptr, env: Ptr, s: State) returns (e: Ptr, t: State)
    requires Disciplined(P) && InternalForm(form, names, Nils(|names|), b, s) && k >= |names| + 4
    ensures Framed(e, names, Nils(|names|), env, s, t) && LetMeaning(P, k, form, env, s) == Eval(P, k, b, e, t)
    ensures Scope(e, names, Nils(|names|), env, s, t)
  {
    hide Eval, EvalArgs, ListOf, ListFrom, Nils, Slots;
    var l := s.mem[form].cdr;
    var fl := s.mem[l].car;
    NthOne(l, s);
    NilArgs(P, k - 1, s.mem[s.mem[l].cdr].car, |names|, env, s);
    var a := EvalArgs(P, k - 1, s.mem[s.mem[l].cdr].car, env, s);
    var x := Extend(a.v, fl, env, a.st);
    e, t := x.v, x.st;
    LetTail(l, b, s, t);
    NoSymbol(fl, names, s);
    ListStays(fl, names, s, t);
    SlotsList(a.v, Nils(|names|), |s.mem|, |a.st.mem|, |s.mem|, a.st, t);
    ListStays(fl, names, s, s);
  }

  lemma NoSymbol(l: Ptr, vs: seq<Ptr>, st: State)
    requires ListOf(l, vs, st)
    ensures l == 0 || IsCons(l, st)
  {
  }

  lemma BodyInTurn(P: Primitives, k: nat, n: nat, b: Ptr, l: Ptr, env: Ptr, st: State) returns (m: nat)
    requires Disciplined(P) && Booted(st) && Lookup(n, BEGIN, env, st) == Done(0, st) && k >= n + 4
    requires BodyIs(b, l, st)
    ensures k - 2 <= m <= k && Eval(P, k, b, env, st) == InTurn(P, m, k - 3, l, env, st)
  {
    hide Booted, Lookup;
    m := k;
    if l == 0 {
      assert EvalSequence(P, k - 3, Begin, 0, env, st) == Again(0, env, st);
    } else if st.mem[l].cdr == 0 {
      LastInTurn(P, k, k - 3, l, env, st);
    } else {
      m := k - 2;
      BeginStep(P, k, n, b, l, env, st);
    }
  }

  lemma BodyGrows(b: Ptr, l: Ptr, st: State, s: State)
    requires BodyIs(b, l, st) && Grows(st, s)
    ensures BodyIs(b, l, s)
  {
  }

  lemma GrowthRewrites(form: Ptr, st: State, s: State)
    requires IsCons(form, st) && Grows(st, s)
    ensures Rewritten(form, st, s)
  {
  }

  lemma {:induction false} ReversedPlain(names: seq<Ptr>)
    requires Plain(names)
    ensures Plain(Reversed(names))
  {
    if names != [] {
      assert forall i :: 0 <= i < |names| - 1 ==> names[1..][i] == names[i + 1];
      ReversedPlain(names[1..]);
    }
  }

  lemma PlainMisses(names: seq<Ptr>, x: Ptr)
    requires Plain(names) && Syntactic(x)
    ensures x !in names
  {
  }

  /** What a `letrec` form has become: (let-internal names nils b), where `b` stands for the
      list `p` of assignments, the last binding first, and body forms. */
  predicate LetrecText(form: Ptr, names: seq<Ptr>, inits: seq<Ptr>, body: Ptr, b: Ptr, p: Ptr, st: State) {
    && |names| == |inits|
    && InternalForm(form, Reversed(names), Nils(|names|), b, st) && BodyIs(b, p, st)
    && SetForms(p, Reversed(names), Reversed(inits), body, form, st)
  }

  /** From there on, with `k` steps. */
  lemma LetrecFrom(P: Primitives, k: nat, n: nat, form: Ptr, names: seq<Ptr>, inits: seq<Ptr>, body: Ptr, b: Ptr, p: Ptr,
                   env: Ptr, st: State, s: State)
    returns (e: Ptr, t: State, m: nat)
    requires Disciplined(P) && Booted(st) && NoDangling(st) && Untouched(n, form, env, st) && Rewritten(form, st, s)
    requires LetrecText(form, names, inits, body, b, p, s) && Plain(names) && k >= 2 * n + 3 * |names| + 18
    ensures Scope(e, Reversed(names), Nils(|names|), env, s, t)
    ensures SetWorks(n + |names| + 2, e, t) && k - 2 <= m <= k
    ensures TextKept(P, n + |names| + 2, m, k - 3, p, Reversed(names), Reversed(inits), body, form, e, t) ==>
              LetMeaning(P, k, form, env, s) == AssignAll(P, m, k - 3, Reversed(names), Reversed(inits), body, e, t)
  {
    hide Eval, Booted, NoDangling, LetMeaning, Rewritten, Untouched, InternalForm, BodyIs, Framed,
         SetForms, Nils, Reversed, TextKept, Plain, Lookup, AssignAll, InTurn, Scope;
    var rs, n' := Reversed(names), n + |names| + 2;
    e, t := NilFrame(P, k, form, rs, b, env, s);
    FrameGrowth(e, rs, Nils(|names|), env, s, t);
    FormStillThere(form, rs, Nils(|names|), b, s);
    GrowthRewrites(form, s, t);
    SetFormsStay(p, rs, Reversed(inits), body, form, s, t);
    BodyGrows(b, p, s, t);
    ReversedPlain(names);
    LetrecScope(n, form, rs, env, st, s, e, t);
    m := BodyInTurn(P, k, n', b, p, e, t);
    if TextKept(P, n', m, k - 3, p, rs, Reversed(inits), body, form, e, t) {
      NoSetForms(p, rs, Reversed(inits), body, form, t);
      AssignsInTurn(P, n', m, k - 3, p, rs, Reversed(inits), body, form, e, t);
    }
  }

  /** `letrec`: in a state `t` in which only the form has been rewritten, and cells added,
      `e` is the environment of the form with every name bound to NIL in one new frame; there
      each init is evaluated and assigned to its name, the last binding first, and then the
      body is evaluated. */
  lemma LetrecAssigns(P: Primitives, k: nat, n: nat, form: Ptr, names: seq<Ptr>, inits: seq<Ptr>, body: Ptr, env: Ptr, st: State)
    returns (b: Ptr, p: Ptr, e: Ptr, s: State, t: State, m: nat)
    requires Disciplined(P) && Booted(st) && NoDangling(st) && BindingForm(form, LETREC, names, inits, body, st)
    requires PairForm(form, |names|, st) && Plain(names)
    requires Untouched(n, form, env, st) && k >= 2 * n + 3 * |names| + 24
    ensures ByLetrec(k - 6, form, st, s) && Rewritten(form, st, s) && LetrecText(form, names, inits, body, b, p, s)
    ensures Scope(e, Reversed(names), Nils(|names|), env, s, t)
    ensures SetWorks(n + |names| + 2, e, t) && k - 8 <= m <= k - 6
    ensures TextKept(P, n + |names| + 2, m, k - 9, p, Reversed(names), Reversed(inits), body, form, e, t) ==>
              Eval(P, k, form, env, st) == AssignAll(P, m, k - 9, Reversed(names), Reversed(inits), body, e, t)
  {
    hide Eval, Booted, BindingForm, NoDangling, LetMeaning, Rewritten, Untouched, InternalForm, BodyIs, SetForms, Nils, Reversed,
         PairForm, TextKept, Plain, ByLetrec, AssignAll, Scope, SetWorks;
    FormHead(form, LETREC, names, inits, body, st);
    p, b, s := LetrecMeans(P, k, n, form, names, inits, body, env, st);
    e, t, m := LetrecFrom(P, k - 6, n, form, names, inits, body, b, p, env, st, s);
  }

  /** Every later evaluation, which finds the form rewritten, means the same. */
  lemma LetrecAgain(P: Primitives, k: nat, n: nat, form: Ptr, names: seq<Ptr>, inits: seq<Ptr>, body: Ptr, b: Ptr, p: Ptr,
                    env: Ptr, st: State)
    returns (e: Ptr, t: State, m: nat)
    requires Disciplined(P) && Booted(st) && NoDangling(st) && LetrecText(form, names, inits, body, b, p, st) && Plain(names)
    requires Untouched(n, form, env, st) && k >= 2 * n + 3 * |names| + 20
    ensures Scope(e, Reversed(names), Nils(|names|), env, st, t)
    ensures SetWorks(n + |names| + 2, e, t) && k - 4 <= m <= k - 2
    ensures TextKept(P, n + |names| + 2, m, k - 5, p, Reversed(names), Reversed(inits), body, form, e, t) ==>
              Eval(P, k, form, env, st) == AssignAll(P, m, k - 5, Reversed(names), Reversed(inits), body, e, t)
  {
    hide Eval, Booted, NoDangling, LetMeaning, Rewritten, Untouched, InternalForm, BodyIs, SetForms, Nils, Reversed,
         TextKept, Plain, AssignAll, Scope, SetWorks;
    InternalAgain(P, k, n, form, Reversed(names), Nils(|names|), b, env, st);
    FormStillThere(form, Reversed(names), Nils(|names|), b, st);
    RewrittenSame(form, st);
    e, t, m := LetrecFrom(P, k - 2, n, form, names, inits, body, b, p, env, st, st);
  }

  lemma FormStillThere(form: Ptr, names: seq<Ptr>, inits: seq<Ptr>, b: Ptr, s: State)
    requires InternalForm(form, names, inits, b, s)
    ensures IsCons(form, s)
  {
  }

  lemma NoSetForms(p: Ptr, names: seq<Ptr>, inits: seq<Ptr>, body: Ptr, form: Ptr, st: State)
    requires |names| == |inits| && SetForms(p, names, inits, body, form, st)
    ensures names == [] ==> p == body
  {
  }

  lemma LetrecScope(n: nat, form: Ptr, names: seq<Ptr>, env: Ptr, st: State, s: State, e: Ptr, t: State)
    requires Booted(st) && NoDangling(st) && Untouched(n, form, env, st) && Rewritten(form, st, s) && Plain(names)
    requires IsCons(form, s) && Framed(e, names, Nils(|names|), env, s, t)
    ensures Booted(t) && Lookup(n + |names| + 2, BEGIN, e, t) == Done(0, t) && SetWorks(n + |names| + 2, e, t)
  {
    hide NoDangling, Rewritten, Framed, Plain, Lookup, MacroBound;
    BootedKept(form, st, s);
    FrameGrowth(e, names, Nils(|names|), env, s, t);
    BootedGrows(s, t);
    var j := n + |names| + 2;
    GrowthRewrites(form, s, t);
    RewrittenTwice(form, st, s, t);
    MissKept(n, j - 1, BEGIN, env, form, st, t);
    MissKept(n, j - 1, SET, env, form, st, t);
    PlainMisses(names, BEGIN);
    PlainMisses(names, SET);
    SeenPast(j, BEGIN, e, names, Nils(|names|), env, s, t);
    SeenPast(j, SET, e, names, Nils(|names|), env, s, t);
  }

  // ---- letrec of functions ----------------------------------------------------------------

  /** (lambda formals . forms), with at least one form. */
  predicate LambdaForm(x: Ptr, form: Ptr, st: State) {
    && x != form && IsCons(x, st) && st.mem[x].car == LAMBDA
    && var a := st.mem[x].cdr;
       a != form && IsCons(a, st) && st.mem[a].cdr != form && IsCons(st.mem[a].cdr, st)
  }

  predicate LambdaForms(inits: seq<Ptr>, form: Ptr, st: State) {
    forall i :: 0 <= i < |inits| ==> LambdaForm(inits[i], form, st)
  }

  /** `c` is the closure of the lambda form `x` over the environment `e`. */
  predicate Closes(c: Ptr, x: Ptr, e: Ptr, s: State, st: State) {
    && IsCons(x, s) && IsCons(s.mem[x].cdr, s)
    && e < c < |st.mem| && st.mem[c].Closure? && st.mem[c].env == e && IsCons(st.mem[c].code, st) && st.mem[c].code > e
    && var a, code := s.mem[s.mem[x].cdr], st.mem[st.mem[c].code];
       && code.car == a.car && IsCons(a.cdr, s) && BodyIs(code.cdr, a.cdr, st)
       && (s.mem[a.cdr].cdr != 0 ==> code.cdr > e)
  }

  predicate LambdaWorks(n: nat, env: Ptr, st: State) {
    && IsSymbol(LAMBDA, st) && LAMBDA in st.globals && 0 < st.globals[LAMBDA] < |st.mem|
    && st.mem[st.globals[LAMBDA]] == FSubr(Lambda) && Lookup(n, LAMBDA, env, st) == Done(0, st)
  }

  /** A lambda form evaluates to its closure, in new cells. */
  lemma LambdaCloses(P: Primitives, n: nat, j: nat, x: Ptr, form: Ptr, e: Ptr, s: State, st: State)
    requires Disciplined(P) && LambdaForm(x, form, s) && Grows(s, st) && e < |st.mem| && LambdaWorks(n, e, st) && j >= n + 4
    ensures var v := Eval(P, j, x, e, st);
            v.Done? && Grows(st, v.st) && v.v >= |st.mem| && Closes(v.v, x, e, s, v.st)
  {
    hide Lookup;
    LookupMost(n, j - 1, LAMBDA, e, st);
    var f, l := st.globals[LAMBDA], st.mem[x].cdr;
    assert Variable(j - 1, LAMBDA, e, st) == Done(f, st);
    assert Eval(P, j, x, e, st) == Call(P, j - 1, f, x, e, st);
    assert Call(P, j - 1, f, x, e, st) == EvalForm(P, j - 2, Lambda, l, e, st);
    NthOne(l, st);
    DropTwo(l, st);
  }

  /** The `i`th cell of a list. */
  function Cell(l: Ptr, i: nat, st: State): Ptr
    decreases i
  {
    if i == 0 || !IsCons(l, st) then l else Cell(st.mem[l].cdr, i - 1, st)
  }

  lemma {:induction false} SlotThere(l: Ptr, vs: seq<Ptr>, lo: nat, hi: nat, i: nat, st: State)
    requires Slots(l, vs, lo, hi, st) && i < |vs|
    ensures lo <= Cell(l, i, st) < hi && IsCons(Cell(l, i, st), st) && st.mem[Cell(l, i, st)].car == vs[i]
    decreases i
  {
    if i > 0 {
      SlotThere(st.mem[l].cdr, vs[1..], l + 1, hi, i - 1, st);
    }
  }

  /** Setting one slot changes one value. */
  lemma {:induction false} SlotSet(l: Ptr, vs: seq<Ptr>, lo: nat, hi: nat, i: nat, v: Ptr, st: State)
    requires Slots(l, vs, lo, hi, st) && i < |vs| && IsCons(Cell(l, i, st), st)
    ensures Slots(l, vs[i := v], lo, hi, SetCar(Cell(l, i, st), v, st))
    decreases i
  {
    var s := SetCar(Cell(l, i, st), v, st);
    if i == 0 {
      SlotsApart(st.mem[l].cdr, vs[1..], l + 1, hi, l, v, st);
      assert vs[0 := v][1..] == vs[1..];
    } else {
      SlotThere(st.mem[l].cdr, vs[1..], l + 1, hi, i - 1, st);
      SlotSet(st.mem[l].cdr, vs[1..], l + 1, hi, i - 1, v, st);
      assert vs[i := v][1..] == vs[1..][i - 1 := v];
    }
  }

  lemma {:induction false} SlotsApart(l: Ptr, vs: seq<Ptr>, lo: nat, hi: nat, c: Ptr, v: Ptr, st: State)
    requires Slots(l, vs, lo, hi, st) && c < lo && IsCons(c, st)
    ensures Slots(l, vs, lo, hi, SetCar(c, v, st))
    decreases |vs|
  {
    if vs != [] {
      SlotsApart(st.mem[l].cdr, vs[1..], l + 1, hi, c, v, st);
    }
  }

  /** A name is found in the slot that goes with it. */
  lemma {:induction false} SlotFound(k: nat, i: nat, fl: Ptr, al: Ptr, names: seq<Ptr>, vs: seq<Ptr>, lo: nat, hi: nat, frame: Ptr, st: State)
    requires ListOf(fl, names, st) && Slots(al, vs, lo, hi, st) && i < |names| == |vs| && k > i
    requires forall h :: 0 <= h < i ==> names[h] != names[i]
    ensures LookupFrame(k, names[i], fl, al, frame, st) == Done(Cell(al, i, st), st)
    decreases i
  {
    if i > 0 {
      assert names[0] != names[i];
      assert forall h :: 0 <= h < i - 1 ==> names[1..][h] == names[h + 1];
      SlotFound(k - 1, i - 1, st.mem[fl].cdr, st.mem[al].cdr, names[1..], vs[1..], al + 1, hi, frame, st);
    }
  }

  /** Of the cells of `st` only slots of the frame may be changed in `t`. */
  predicate OnlySlots(e: Ptr, s: State, st: State, t: State) {
    && IsCons(e, st) && |st.mem| <= |t.mem| && t.globals == st.globals && t.frames == st.frames
    && forall q :: 0 <= q < |st.mem| && !(|s.mem| <= q < st.mem[e].car) ==> t.mem[q] == st.mem[q]
  }

  lemma ClosureStays(c: Ptr, x: Ptr, e: Ptr, s: State, st: State, t: State)
    requires Closes(c, x, e, s, st) && Grows(s, st) && Grows(s, t) && OnlySlots(e, s, st, t) && st.mem[e].car < e
    ensures Closes(c, x, e, s, t)
  {
  }

  lemma ScopeGrows(e: Ptr, names: seq<Ptr>, vs: seq<Ptr>, env: Ptr, s: State, st: State, t: State)
    requires Scope(e, names, vs, env, s, st) && Grows(st, t)
    ensures Scope(e, names, vs, env, s, t) && OnlySlots(e, s, st, t) && Framed(e, names, vs, env, s, t)
  {
    hide ListOf, Slots, ListFrom;
    var f := st.mem[e].car;
    SlotsList(st.mem[f].cdr, vs, |s.mem|, f, |s.mem|, st, t);
    ListStays(st.mem[f].car, names, s, t);
  }

  lemma ScopeSet(e: Ptr, names: seq<Ptr>, vs: seq<Ptr>, env: Ptr, s: State, st: State, i: nat, v: Ptr)
    requires Scope(e, names, vs, env, s, st) && i < |vs|
    ensures var c := Cell(st.mem[st.mem[e].car].cdr, i, st);
            && IsCons(c, st)
            && Scope(e, names, vs[i := v], env, s, SetCar(c, v, st)) && OnlySlots(e, s, st, SetCar(c, v, st))
  {
    hide ListOf, Slots, Cell;
    var f := st.mem[e].car;
    SlotThere(st.mem[f].cdr, vs, |s.mem|, f, i, st);
    SlotSet(st.mem[f].cdr, vs, |s.mem|, f, i, v, st);
  }

  predicate Distinct(names: seq<Ptr>) {
    forall i, h :: 0 <= h < i < |names| ==> names[h] != names[i]
  }

  lemma ScopeFinds(k: nat, e: Ptr, names: seq<Ptr>, vs: seq<Ptr>, env: Ptr, s: State, st: State, i: nat)
    requires Scope(e, names, vs, env, s, st) && i < |names| == |vs| && Distinct(names) && k > |names| + 1
    ensures Lookup(k, names[i], e, st) == Done(Cell(st.mem[st.mem[e].car].cdr, i, st), st)
    ensures Variable(k, names[i], e, st) == Done(vs[i], st)
  {
    hide ListOf, Slots, Cell;
    var f := st.mem[e].car;
    ListStays(st.mem[f].car, names, s, st);
    SlotThere(st.mem[f].cdr, vs, |s.mem|, f, i, st);
    SlotFound(k - 1, i, st.mem[f].car, st.mem[f].cdr, names, vs, |s.mem|, f, f, st);
  }

  /** One assignment of a closure to its name. */
  lemma LambdaAssigned(P: Primitives, n: nat, j: nat, d: nat, x: Ptr, names: seq<Ptr>, vs: seq<Ptr>, form: Ptr, e: Ptr, env: Ptr,
                       s: State, st: State) returns (c: Ptr, t: State)
    requires Disciplined(P) && Scope(e, names, vs, env, s, st) && d < |names| == |vs| && Distinct(names)
    requires IsSymbol(names[d], s) && LambdaForm(x, form, s) && LambdaWorks(n, e, st) && j >= n + |names| + 9
    ensures Assign(P, j, names[d], x, e, st) == Done(c, t)
    ensures Eval(P, j - 3, x, e, st).Done? && Grows(st, Eval(P, j - 3, x, e, st).st)
    ensures SetVar(j - 3, names[d], Eval(P, j - 3, x, e, st).v, e, Eval(P, j - 3, x, e, st).st) == Done(c, t)
    ensures Scope(e, names, vs[d := c], env, s, t) && Closes(c, x, e, s, t) && OnlySlots(e, s, st, t)
  {
    hide Eval, Lookup, Cell, Distinct;
    LambdaCloses(P, n, j - 3, x, form, e, s, st);
    var v := Eval(P, j - 3, x, e, st);
    ScopeGrows(e, names, vs, env, s, st, v.st);
    ScopeFinds(j - 3, e, names, vs, env, s, v.st, d);
    var slot := Cell(v.st.mem[v.st.mem[e].car].cdr, d, v.st);
    ScopeSet(e, names, vs, env, s, v.st, d, v.v);
    c, t := v.v, SetCar(slot, v.v, v.st);
    ClosureStays(c, x, e, s, v.st, t);
  }

  /** In `st` the syntactic names and `lambda` mean what they should in `env`, the names of
      the form are none of them, and `s` is `st` with the form rewritten. */
  predicate OrdinaryPlace(n: nat, form: Ptr, names: seq<Ptr>, env: Ptr, st: State, s: State) {
    && Booted(st) && NoDangling(st) && Untouched(n, form, env, st) && LambdaWorks(n, env, st)
    && Plain(names) && LAMBDA !in names && Rewritten(form, st, s)
  }

  lemma StillWorks(n: nat, form: Ptr, e: Ptr, names: seq<Ptr>, vs: seq<Ptr>, env: Ptr, st: State, s: State, u: State)
    requires OrdinaryPlace(n, form, names, env, st, s) && Scope(e, names, vs, env, s, u) && |names| == |vs|
    ensures SetWorks(n + |names| + 2, e, u) && LambdaWorks(n + |names| + 2, e, u)
  {
    hide Lookup, NoDangling, Plain, MacroBound, Scope, Framed;
    ScopeGrows(e, names, vs, env, s, u, u);
    FrameGrowth(e, names, vs, env, s, u);
    GrowthRewrites(form, s, u);
    RewrittenTwice(form, st, s, u);
    var j := n + |names| + 2;
    MissKept(n, j - 1, SET, env, form, st, u);
    MissKept(n, j - 1, LAMBDA, env, form, st, u);
    PlainMisses(names, SET);
    SeenPast(j, SET, e, names, vs, env, s, u);
    SeenPast(j, LAMBDA, e, names, vs, env, s, u);
  }

  lemma ScopeGrowth(e: Ptr, names: seq<Ptr>, vs: seq<Ptr>, env: Ptr, s: State, t: State)
    requires Scope(e, names, vs, env, s, t)
    ensures Grows(s, t) && IsCons(e, t) && t.mem[e].car < e
  {
  }

  /** From the `d`th on, each name is set to the closure of its lambda form, and the
      closures made before stay. */
  lemma {:induction false} LambdasAssigned(P: Primitives, n: nat, m: nat, k: nat, p: Ptr, names: seq<Ptr>, inits: seq<Ptr>, body: Ptr,
                                           d: nat, vs: seq<Ptr>, form: Ptr, e: Ptr, env: Ptr, st0: State, s: State, st: State)
    returns (ws: seq<Ptr>, u: State)
    requires Disciplined(P) && OrdinaryPlace(n, form, names, env, st0, s) && body != 0 && Distinct(names)
    requires d <= |names| == |inits| == |vs| && Scope(e, names, vs, env, s, st) && IsCons(form, s)
    requires SetForms(p, names[d..], inits[d..], body, form, s) && LambdaForms(inits, form, s)
    requires forall i :: 0 <= i < |names| ==> IsSymbol(names[i], s)
    requires forall i :: 0 <= i < d ==> Closes(vs[i], inits[i], e, s, st)
    requires k >= n + 3 * |names| - d + 14
    ensures |ws| == |names| && Scope(e, names, ws, env, s, u)
    ensures forall i :: 0 <= i < |names| ==> Closes(ws[i], inits[i], e, s, u)
    ensures TextKept(P, n + |names| + 2, m, k, p, names[d..], inits[d..], body, form, e, st)
    ensures AssignAll(P, m, k, names[d..], inits[d..], body, e, st) == InTurn(P, m, k - (|names| - d), body, e, u)
    decreases |names| - d
  {
    hide Eval, Assign, Scope, Closes, InTurn, OrdinaryPlace, Distinct, LambdaForm, SetForms, SetForm, SetVar, SetWorks, LambdaWorks,
         Grows, OnlySlots, EvalSequence, IsSymbol, IsCons, Car;
    if d == |names| {
      ws, u := vs, st;
      assert names[d..] == [] && inits[d..] == [];
    } else {
      var n' := n + |names| + 2;
      ScopeGrowth(e, names, vs, env, s, st);
      StillWorks(n, form, e, names, vs, env, st0, s, st);
      var c, t := LambdaAssigned(P, n', k - 1, d, inits[d], names, vs, form, e, env, s, st);
      ScopeGrowth(e, names, vs[d := c], env, s, t);
      forall i | 0 <= i < d
        ensures Closes(vs[i], inits[i], e, s, t)
      {
        ClosureStays(vs[i], inits[i], e, s, st, t);
      }
      TextStays(p, names[d..], inits[d..], body, form, s, st, Eval(P, k - 4, inits[d], e, st).st);
      assert names[d..][1..] == names[d + 1..] && inits[d..][1..] == inits[d + 1..];
      assert names[d..][0] == names[d] && inits[d..][0] == inits[d];
      ws, u := LambdasAssigned(P, n, m, k - 1, st.mem[p].cdr, names, inits, body, d + 1, vs[d := c], form, e, env, st0, s, t);
    }
  }

  /** The first assignment is where it was, and its name too. */
  lemma TextStays(p: Ptr, names: seq<Ptr>, inits: seq<Ptr>, body: Ptr, form: Ptr, s: State, st: State, t: State)
    requires 0 < |names| == |inits| && SetForms(p, names, inits, body, form, s) && Grows(s, st) && Grows(st, t) && IsCons(form, s)
    ensures SetForms(p, names, inits, body, form, st) && 0 < p < |st.mem| && st.mem[p].Cons?
    ensures SetForms(st.mem[p].cdr, names[1..], inits[1..], body, form, s)
    ensures 0 < st.mem[p].car < |st.mem| && st.mem[st.mem[p].car].Cons?
    ensures Car(st.mem[st.mem[p].car].cdr, t) == Done(names[0], t)
  {
    GrowthRewrites(form, s, st);
    SetFormsStay(p, names, inits, body, form, s, st);
  }

  lemma {:induction false} ReversedAt(s: seq<Ptr>, i: nat)
    requires i < |s|
    ensures Reversed(s)[i] == s[|s| - 1 - i]
  {
    if i < |s| - 1 {
      ReversedAt(s[1..], i);
    }
  }

  lemma ReversedNames(names: seq<Ptr>, inits: seq<Ptr>, form: Ptr, st: State)
    requires |names| == |inits| && Distinct(names) && LambdaForms(inits, form, st) && LAMBDA !in names
    requires forall i :: 0 <= i < |names| ==> IsSymbol(names[i], st)
    ensures Distinct(Reversed(names)) && LambdaForms(Reversed(inits), form, st) && LAMBDA !in Reversed(names)
    ensures forall i :: 0 <= i < |names| ==> IsSymbol(Reversed(names)[i], st)
  {
    hide LambdaForm;
    forall i | 0 <= i < |names|
      ensures Reversed(names)[i] == names[|names| - 1 - i] && Reversed(inits)[i] == inits[|names| - 1 - i]
    {
      ReversedAt(names, i);
      ReversedAt(inits, i);
    }
  }

  lemma LambdasStay(names: seq<Ptr>, inits: seq<Ptr>, form: Ptr, st: State, s: State)
    requires |names| == |inits| && LambdaForms(inits, form, st) && Rewritten(form, st, s)
    requires forall i :: 0 <= i < |names| ==> IsSymbol(names[i], st)
    ensures LambdaForms(inits, form, s)
    ensures forall i :: 0 <= i < |names| ==> IsSymbol(names[i], s)
  {
  }

  /** In `u` every name of the `letrec` is bound in `e`, which is `env` with one more frame
      on top of `s`, to the closure of its lambda form over `e` itself. */
  predicate Defined(e: Ptr, names: seq<Ptr>, inits: seq<Ptr>, env: Ptr, s: State, u: State) {
    && |names| == |inits| && Grows(s, u) && e >= |s.mem| && IsCons(e, u) && u.mem[e].cdr == env
    && forall i :: 0 <= i < |names| ==>
         var v := Variable(|names| + 2, names[i], e, u);
         v.Done? && v.st == u && Closes(v.v, inits[i], e, s, u)
  }

  /** What the inits and names have to be for that. */
  predicate Functions(names: seq<Ptr>, inits: seq<Ptr>, form: Ptr, st: State) {
    && |names| == |inits| && Plain(names) && LAMBDA !in names && Distinct(names) && LambdaForms(inits, form, st)
    && forall i :: 0 <= i < |names| ==> IsSymbol(names[i], st)
  }

  lemma LambdasFrom(P: Primitives, m: nat, k: nat, n: nat, form: Ptr, names: seq<Ptr>, inits: seq<Ptr>, body: Ptr, b: Ptr, p: Ptr,
                    e: Ptr, env: Ptr, st: State, s: State, t: State)
    returns (u: State)
    requires Disciplined(P) && Booted(st) && NoDangling(st) && Untouched(n, form, env, st) && LambdaWorks(n, env, st)
    requires Rewritten(form, st, s) && LetrecText(form, names, inits, body, b, p, s) && Functions(names, inits, form, s)
    requires Scope(e, Reversed(names), Nils(|names|), env, s, t) && body != 0 && k >= n + 3 * |names| + 14
    ensures Defined(e, names, inits, env, s, u)
    ensures TextKept(P, n + |names| + 2, m, k, p, Reversed(names), Reversed(inits), body, form, e, t)
    ensures AssignAll(P, m, k, Reversed(names), Reversed(inits), body, e, t) == InTurn(P, m, k - |names|, body, e, u)
  {
    hide Eval, Booted, NoDangling, Rewritten, Untouched, InternalForm, BodyIs, SetForms, Reversed, Nils, TextKept, Plain,
         AssignAll, InTurn, Scope, LambdaForms, LambdaWorks, Distinct, Variable, Closes, IsSymbol;
    var rs, ris, w := Reversed(names), Reversed(inits), |names|;
    FormStillThere(form, rs, Nils(w), b, s);
    ReversedNames(names, inits, form, s);
    ReversedPlain(names);
    ScopeGrowth(e, rs, Nils(w), env, s, t);
    assert rs[0..] == rs && ris[0..] == ris;
    var ws;
    ws, u := LambdasAssigned(P, n, m, k, p, rs, ris, body, 0, Nils(w), form, e, env, st, s, t);
    ScopeEnv(e, rs, ws, env, s, u);
    forall i | 0 <= i < w
      ensures var v := Variable(w + 2, names[i], e, u); v == Done(ws[w - 1 - i], u) && Closes(v.v, inits[i], e, s, u)
    {
      ReversedAt(names, w - 1 - i);
      ReversedAt(inits, w - 1 - i);
      ScopeFinds(w + 2, e, rs, ws, env, s, u, w - 1 - i);
    }
  }

  /** Where every init is a lambda form, `letrec` defines functions that see each other: the
      body is evaluated where each name is bound to the closure of its lambda form over that
      very environment. */
  lemma LetrecOfLambdas(P: Primitives, k: nat, n: nat, form: Ptr, names: seq<Ptr>, inits: seq<Ptr>, body: Ptr, env: Ptr, st: State)
    returns (b: Ptr, p: Ptr, e: Ptr, s: State, u: State, m: nat)
    requires Disciplined(P) && Booted(st) && NoDangling(st) && BindingForm(form, LETREC, names, inits, body, st)
    requires PairForm(form, |names|, st) && Functions(names, inits, form, st) && body != 0
    requires Untouched(n, form, env, st) && LambdaWorks(n, env, st) && k >= 2 * n + 4 * |names| + 26
    ensures ByLetrec(k - 6, form, st, s) && Rewritten(form, st, s) && LetrecText(form, names, inits, body, b, p, s)
    ensures Functions(names, inits, form, s) && Defined(e, names, inits, env, s, u) && k - 8 <= m <= k - 6
    ensures Eval(P, k, form, env, st) == InTurn(P, m, k - 9 - |names|, body, e, u)
  {
    hide Eval, Booted, BindingForm, NoDangling, Rewritten, Untouched, PairForm, TextKept, Plain, ByLetrec, LetrecText,
         AssignAll, InTurn, Scope, LambdaForms, LambdaWorks, Distinct, Defined, SetWorks;
    var t;
    b, p, e, s, t, m := LetrecAssigns(P, k, n, form, names, inits, body, env, st);
    LambdasStay(names, inits, form, st, s);
    u := LambdasFrom(P, m, k - 9, n, form, names, inits, body, b, p, e, env, st, s, t);
  }

  /** And again at every later evaluation. */
  lemma LambdasAgain(P: Primitives, k: nat, n: nat, form: Ptr, names: seq<Ptr>, inits: seq<Ptr>, body: Ptr, b: Ptr, p: Ptr,
                     env: Ptr, st: State)
    returns (e: Ptr, u: State, m: nat)
    requires Disciplined(P) && Booted(st) && NoDangling(st) && LetrecText(form, names, inits, body, b, p, st)
    requires Functions(names, inits, form, st) && body != 0
    requires Untouched(n, form, env, st) && LambdaWorks(n, env, st) && k >= 2 * n + 4 * |names| + 22
    ensures Defined(e, names, inits, env, st, u) && k - 4 <= m <= k - 2
    ensures Eval(P, k, form, env, st) == InTurn(P, m, k - 5 - |names|, body, e, u)
  {
    hide Eval, Booted, NoDangling, Rewritten, Untouched, TextKept, Plain, AssignAll, InTurn, Scope, LambdaForms, LambdaWorks,
         Distinct, Defined, SetWorks, InternalForm, BodyIs, SetForms;
    var t;
    e, t, m := LetrecAgain(P, k, n, form, names, inits, body, b, p, env, st);
    FormStillThere(form, Reversed(names), Nils(|names|), b, st);
    RewrittenSame(form, st);
    u := LambdasFrom(P, m, k - 5, n, form, names, inits, body, b, p, e, env, st, st, t);
  }

  lemma ScopeEnv(e: Ptr, names: seq<Ptr>, vs: seq<Ptr>, env: Ptr, s: State, t: State)
    requires Scope(e, names, vs, env, s, t)
    ensures Grows(s, t) && e >= |s.mem| && IsCons(e, t) && t.mem[e].cdr == env
  {
  }
}
