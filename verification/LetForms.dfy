/** `let`, `let*` and `letrec` (src/slib.c:1054-1056, 1744-1747, 1940-1986).  Each is a
    variable holding the name of a macro function; the first evaluation of a form runs the
    macro, which rewrites the form's own cells, and goes on with what it has become. */
module LetForms {
  import opened Application
  import opened Environments
  import opened Evaluator

  function Reversed(s: seq<Ptr>): (r: seq<Ptr>)
    ensures |r| == |s|
  {
    if s == [] then [] else Reversed(s[1..]) + [s[0]]
  }

  // ---- Shapes of forms ---------------------------------------------------------------

  /** A binding is a name alone, or a list of a name and an initial form.  (Nothing here
      may run through the cell `form`: the form is not part of itself.) */
  predicate BindingIs(b: Ptr, name: Ptr, init: Ptr, form: Ptr, st: State) {
    if IsSymbol(b, st) then name == b && init == 0
    else
      && Car(b, st) == Done(name, st) && Nth(b, 1, st) == Done(init, st)
      && b != form && (IsCons(b, st) ==> st.mem[b].cdr != form)
  }

  predicate BindingList(p: Ptr, names: seq<Ptr>, inits: seq<Ptr>, form: Ptr, st: State)
    requires |names| == |inits|
    decreases |names|
  {
    if names == [] then p == 0
    else
      && p != form && IsCons(p, st) && BindingIs(st.mem[p].car, names[0], inits[0], form, st)
      && BindingList(st.mem[p].cdr, names[1..], inits[1..], form, st)
  }

  /** (head bindings . body) */
  predicate BindingForm(form: Ptr, head: Ptr, names: seq<Ptr>, inits: seq<Ptr>, body: Ptr, st: State) {
    && |names| == |inits|
    && IsCons(form, st) && st.mem[form].car == head
    && IsCons(st.mem[form].cdr, st) && st.mem[form].cdr != form && body != form
    && var l := st.mem[st.mem[form].cdr];
       BindingList(l.car, names, inits, form, st) && l.cdr == body && (body == 0 || IsCons(body, st))
  }

  /** What stands for the forms of a body: the one form, or (begin . forms). */
  predicate BodyIs(b: Ptr, body: Ptr, st: State) {
    if body == 0 then b == 0
    else
      && IsCons(body, st)
      && if st.mem[body].cdr == 0 then b == st.mem[body].car
         else IsCons(b, st) && st.mem[b] == Cons(BEGIN, body)
  }

  /** The rewritten form: (let-internal names inits body). */
  predicate InternalForm(form: Ptr, names: seq<Ptr>, inits: seq<Ptr>, b: Ptr, st: State) {
    && IsCons(form, st) && st.mem[form].car == LET_INTERNAL
    && var l := st.mem[form].cdr;
       && IsCons(l, st) && ListOf(st.mem[l].car, names, st)
       && IsCons(st.mem[l].cdr, st) && ListOf(st.mem[st.mem[l].cdr].car, inits, st)
       && IsCons(st.mem[st.mem[l].cdr].cdr, st)
       && st.mem[st.mem[st.mem[l].cdr].cdr].car == b
  }

  // ---- Fresh lists ----------------------------------------------------------------------

  /** A proper list all of whose cells are at or above `base`. */
  predicate ListFrom(l: Ptr, vs: seq<Ptr>, base: nat, st: State)
    decreases |vs|
  {
    if vs == [] then l == 0
    else l >= base && IsCons(l, st) && st.mem[l].car == vs[0] && ListFrom(st.mem[l].cdr, vs[1..], base, st)
  }

  /** `s` differs from `st` only by having more memory and perhaps another cons in the
      cell `form`, which is old. */
  predicate Rewritten(form: Ptr, st: State, s: State) {
    && IsCons(form, st) && IsCons(form, s)
    && |st.mem| <= |s.mem| && s.globals == st.globals && s.frames == st.frames
    && forall q :: 0 <= q < |st.mem| && q != form ==> s.mem[q] == st.mem[q]
  }

  lemma {:induction false} ListFromStays(l: Ptr, vs: seq<Ptr>, base: nat, st: State, s: State)
    requires ListFrom(l, vs, base, st) && |st.mem| <= |s.mem|
    requires forall q :: base <= q < |st.mem| ==> s.mem[q] == st.mem[q]
    ensures ListFrom(l, vs, base, s) && ListOf(l, vs, s)
    decreases |vs|
  {
    if vs != [] {
      ListFromStays(st.mem[l].cdr, vs[1..], base, st, s);
    }
  }

  lemma NthOne(b: Ptr, st: State)
    ensures Nth(b, 1, st) == var q := Cdr(b, st); if q.Done? then Car(q.v, st) else q
  {
    assert Drop(b, 0, st) == Done(b, st);
  }

  lemma BindingStays(b: Ptr, name: Ptr, init: Ptr, form: Ptr, st: State, s: State)
    requires BindingIs(b, name, init, form, st) && st.mem <= s.mem
    ensures BindingIs(b, name, init, form, s)
  {
    hide Nth;
    NthOne(b, st);
    NthOne(b, s);
  }

  lemma {:induction false} BindingsStay(p: Ptr, names: seq<Ptr>, inits: seq<Ptr>, form: Ptr, st: State, s: State)
    requires |names| == |inits| && BindingList(p, names, inits, form, st) && st.mem <= s.mem
    ensures BindingList(p, names, inits, form, s)
    decreases |names|
  {
    hide BindingIs;
    if names != [] {
      BindingStays(st.mem[p].car, names[0], inits[0], form, st, s);
      BindingsStay(st.mem[p].cdr, names[1..], inits[1..], form, st, s);
    }
  }

  // ---- What the macros build -----------------------------------------------------------

  /** The splitting loop leaves names and inits reversed on the two lists. */
  lemma {:induction false} SplitGives(k: nat, p: Ptr, names: seq<Ptr>, inits: seq<Ptr>, form: Ptr,
                                      fl: Ptr, fs: seq<Ptr>, al: Ptr, vs: seq<Ptr>, base: nat, st: State)
    requires |names| == |inits| <= k && BindingList(p, names, inits, form, st) && 0 < base <= |st.mem|
    requires ListFrom(fl, fs, base, st) && ListFrom(al, vs, base, st)
    ensures var r := SplitBindings(k, p, fl, al, st);
            && r.Values? && Grows(st, r.st)
            && ListFrom(r.vs[0], Reversed(names) + fs, base, r.st)
            && ListFrom(r.vs[1], Reversed(inits) + vs, base, r.st)
    decreases |names|
  {
    hide BindingIs, SplitBindings, BindingList, ListFrom, Reversed, Grows, IsCons;
    if names == [] {
      SplitNone(k, p, inits, form, fl, fs, al, vs, base, st);
    } else {
      BindingListParts(p, names, inits, form, st);
      var next, n := st.mem[p].cdr, |st.mem|;
      var s := st.(mem := st.mem + [Cons(names[0], fl), Cons(inits[0], al)]);
      SplitStep(k, p, names, inits, form, fl, al, st, s);
      BindingsStay(next, names[1..], inits[1..], form, st, s);
      ListFromPut(n, names[0], fl, fs, base, st, s);
      ListFromPut(n + 1, inits[0], al, vs, base, st, s);
      SplitGives(k - 1, next, names[1..], inits[1..], form, n, [names[0]] + fs, n + 1, [inits[0]] + vs, base, s);
      ReversedOnto(names, fs);
      ReversedOnto(inits, vs);
      GrowsOn(st, s, SplitBindings(k, p, fl, al, st).st);
    }
  }

  lemma GrowsOn(st: State, s: State, t: State)
    requires st.mem <= s.mem && s.globals == st.globals && s.frames == st.frames && Grows(s, t)
    ensures Grows(st, t)
  {
  }

  lemma SplitNone(k: nat, p: Ptr, inits: seq<Ptr>, form: Ptr, fl: Ptr, fs: seq<Ptr>, al: Ptr, vs: seq<Ptr>, base: nat, st: State)
    requires inits == [] && BindingList(p, [], inits, form, st)
    requires ListFrom(fl, fs, base, st) && ListFrom(al, vs, base, st)
    ensures var r := SplitBindings(k, p, fl, al, st);
            && r.Values? && Grows(st, r.st)
            && ListFrom(r.vs[0], Reversed([]) + fs, base, r.st)
            && ListFrom(r.vs[1], Reversed(inits) + vs, base, r.st)
  {
    assert [] + fs == fs && [] + vs == vs;
  }

  lemma ReversedOnto(s: seq<Ptr>, t: seq<Ptr>)
    requires s != []
    ensures Reversed(s[1..]) + ([s[0]] + t) == Reversed(s) + t
  {
  }

  lemma BindingListParts(p: Ptr, names: seq<Ptr>, inits: seq<Ptr>, form: Ptr, st: State)
    requires 0 < |names| == |inits| && BindingList(p, names, inits, form, st)
    ensures 0 < p < |st.mem| && st.mem[p].Cons? && BindingIs(st.mem[p].car, names[0], inits[0], form, st)
    ensures BindingList(st.mem[p].cdr, names[1..], inits[1..], form, st)
  {
  }

  lemma SplitStep(k: nat, p: Ptr, names: seq<Ptr>, inits: seq<Ptr>, form: Ptr, fl: Ptr, al: Ptr, st: State, s: State)
    requires 0 < |names| == |inits| <= k && BindingList(p, names, inits, form, st)
    requires s == st.(mem := st.mem + [Cons(names[0], fl), Cons(inits[0], al)])
    ensures 0 < p < |st.mem| && st.mem[p].Cons?
    ensures SplitBindings(k, p, fl, al, st) == SplitBindings(k - 1, st.mem[p].cdr, |st.mem|, |st.mem| + 1, s)
  {
    hide Nth;
  }

  lemma ListFromPut(n: Ptr, v: Ptr, l: Ptr, vs: seq<Ptr>, base: nat, st: State, s: State)
    requires ListFrom(l, vs, base, st) && st.mem <= s.mem && n >= base
    requires 0 < n < |s.mem| && s.mem[n] == Cons(v, l)
    ensures ListFrom(n, [v] + vs, base, s)
  {
    ListFromStays(l, vs, base, st, s);
    assert ([v] + vs)[1..] == vs;
  }

  lemma {:induction false} ReverseGives(k: nat, l: Ptr, vs: seq<Ptr>, onto: Ptr, os: seq<Ptr>, base: nat, st: State)
    requires ListFrom(l, vs, base, st) && ListFrom(onto, os, base, st) && |vs| <= k && 0 < base <= |st.mem|
    ensures var r := Reverse(k, l, onto, st);
            r.Done? && Grows(st, r.st) && ListFrom(r.v, Reversed(vs) + os, base, r.st)
    decreases |vs|
  {
    if vs == [] {
      assert [] + os == os;
    } else {
      var s := Alloc(Cons(vs[0], onto), st);
      ListFromStays(st.mem[l].cdr, vs[1..], base, st, s);
      ListFromPut(|st.mem|, vs[0], onto, os, base, st, s);
      ReverseGives(k - 1, st.mem[l].cdr, vs[1..], |st.mem|, [vs[0]] + os, base, s);
      ReversedOnto(vs, os);
    }
  }

  lemma {:induction false} ReversedTwice(s: seq<Ptr>)
    ensures Reversed(Reversed(s)) == s
  {
    if s != [] {
      ReversedTwice(s[1..]);
      ReversedSnoc(Reversed(s[1..]), s[0]);
    }
  }

  lemma {:induction false} ReversedSnoc(s: seq<Ptr>, x: Ptr)
    ensures Reversed(s + [x]) == [x] + Reversed(s)
  {
    if s == [] {
      assert [] + [x] == [x];
      assert Reversed([x]) == Reversed([]) + [x] by { assert [x][1..] == []; }
    } else {
      assert (s + [x])[1..] == s[1..] + [x];
      ReversedSnoc(s[1..], x);
    }
  }

  /** Splitting and reversing: the two lists as they go into the form. */
  lemma SplitThenReverse(k: nat, names: seq<Ptr>, inits: seq<Ptr>, fl: Ptr, al: Ptr, base: nat, st: State)
    requires |names| == |inits| <= k && 0 < base <= |st.mem|
    requires ListFrom(fl, Reversed(names), base, st) && ListFrom(al, Reversed(inits), base, st)
    ensures var a := Reverse(k, al, 0, st);
            && a.Done? && Grows(st, a.st)
            && var f := Reverse(k, fl, 0, a.st);
               && f.Done? && Grows(st, f.st)
               && ListFrom(a.v, inits, base, f.st) && ListFrom(f.v, names, base, f.st)
  {
    hide Reverse, ListFrom;
    NoList(base, st);
    ReverseGives(k, al, Reversed(inits), 0, [], base, st);
    ReversedTwice(inits);
    assert inits + [] == inits;
    var a := Reverse(k, al, 0, st);
    NoList(base, a.st);
    ListFromStays(fl, Reversed(names), base, st, a.st);
    ReverseGives(k, fl, Reversed(names), 0, [], base, a.st);
    ReversedTwice(names);
    assert names + [] == names;
    ListFromStays(a.v, inits, base, a.st, Reverse(k, fl, 0, a.st).st);
  }

  lemma NoList(base: nat, st: State)
    ensures ListFrom(0, [], base, st)
  {
  }

  lemma FormParts(form: Ptr, head: Ptr, names: seq<Ptr>, inits: seq<Ptr>, body: Ptr, st: State)
    requires BindingForm(form, head, names, inits, body, st)
    ensures |names| == |inits| && IsCons(form, st) && body != form
    ensures Drop(form, 2, st) == Done(body, st)
    ensures Nth(form, 1, st).Done? && BindingList(Nth(form, 1, st).v, names, inits, form, st)
    ensures body == 0 || IsCons(body, st)
  {
    hide BindingList;
    NthOne(form, st);
    DropTwo(form, st);
  }

  lemma DropTwo(p: Ptr, st: State)
    ensures Drop(p, 2, st) == var q := Cdr(p, st); if q.Done? then Cdr(q.v, st) else q
  {
    assert Drop(p, 0, st) == Done(p, st);
    assert Drop(p, 1, st) == Cdr(p, st);
  }

  lemma NewForm(form: Ptr, names: seq<Ptr>, inits: seq<Ptr>, b: Ptr, fl: Ptr, al: Ptr, base: nat, st: State, s: State)
    requires 0 < form < base <= |st.mem| && IsCons(form, st)
    requires ListFrom(al, inits, base, st) && ListFrom(fl, names, base, st)
    requires var p := |st.mem|;
             s == st.(mem := (st.mem + [Cons(b, 0), Cons(al, p), Cons(fl, p + 1)])[form := Cons(LET_INTERNAL, p + 2)])
    ensures InternalForm(form, names, inits, b, s) && Rewritten(form, st, s)
  {
    hide ListFrom, ListOf;
    ListFromStays(al, inits, base, st, s);
    ListFromStays(fl, names, base, st, s);
  }

  function OneBody(body: Ptr, st: State): Outcome {
    if Cdr(body, st) == Done(0, st) then Car(body, st) else NewCons(BEGIN, body, st)
  }

  lemma BodyMade(form: Ptr, body: Ptr, st: State, t: State, s: State)
    requires body == 0 || IsCons(body, st)
    requires OneBody(body, st).Done? && Grows(OneBody(body, st).st, t) && Rewritten(form, t, s)
    requires form < |st.mem| && body != form
    ensures BodyIs(OneBody(body, st).v, body, s) && Rewritten(form, st, s)
  {
  }

  lemma OneBodyDone(body: Ptr, st: State)
    requires body == 0 || IsCons(body, st)
    ensures OneBody(body, st).Done? && Grows(st, OneBody(body, st).st)
  {
  }

  lemma FinishIs(k: nat, form: Ptr, body: Ptr, fl: Ptr, al: Ptr, st: State)
    requires (body == 0 || IsCons(body, st)) && IsCons(form, st)
    ensures var b := OneBody(body, st);
            var inits := Reverse(k, al, 0, b.st);
            inits.Done? ==>
              var names := Reverse(k, fl, 0, inits.st);
              names.Done? && form < |names.st.mem| && names.st.mem[form].Cons? && form > 0 ==>
                var p, s := |names.st.mem|, names.st;
                FinishLet(k, form, body, fl, al, st)
                == Done(form, s.(mem := (s.mem + [Cons(b.v, 0), Cons(inits.v, p), Cons(names.v, p + 1)])[form := Cons(LET_INTERNAL, p + 2)]))
  {
    hide Reverse;
  }

  /** The last steps of `siod_let_macro`. */
  lemma FinishGives(k: nat, form: Ptr, names: seq<Ptr>, inits: seq<Ptr>, body: Ptr, fl: Ptr, al: Ptr, base: nat, st: State)
    returns (b: Ptr, s: State)
    requires |names| == |inits| <= k && 0 < form < base <= |st.mem| && IsCons(form, st)
    requires ListFrom(fl, Reversed(names), base, st) && ListFrom(al, Reversed(inits), base, st)
    requires body != form && (body == 0 || (body < base && IsCons(body, st)))
    ensures FinishLet(k, form, body, fl, al, st) == Done(form, s)
    ensures Rewritten(form, st, s) && InternalForm(form, names, inits, b, s) && BodyIs(b, body, s)
  {
    hide Reverse, ListFrom, ListOf, InternalForm, Reversed, FinishLet, OneBody, BodyIs, Rewritten;
    OneBodyDone(body, st);
    FinishIs(k, form, body, fl, al, st);
    var bo := OneBody(body, st);
    ListFromStays(fl, Reversed(names), base, st, bo.st);
    ListFromStays(al, Reversed(inits), base, st, bo.st);
    SplitThenReverse(k, names, inits, fl, al, base, bo.st);
    var ar := Reverse(k, al, 0, bo.st);
    var fr := Reverse(k, fl, 0, ar.st);
    var p := |fr.st.mem|;
    b := bo.v;
    s := fr.st.(mem := (fr.st.mem + [Cons(b, 0), Cons(ar.v, p), Cons(fr.v, p + 1)])[form := Cons(LET_INTERNAL, p + 2)]);
    NewForm(form, names, inits, b, fr.v, ar.v, base, fr.st, s);
    BodyMade(form, body, st, fr.st, s);
  }

  /** What `siod_let_macro` makes of a `let` form: names and inits in their original order,
      the body as one form, everything else in memory as it was. */
  lemma ExpandLetGives(k: nat, form: Ptr, head: Ptr, names: seq<Ptr>, inits: seq<Ptr>, body: Ptr, st: State)
    returns (b: Ptr, s: State)
    requires BindingForm(form, head, names, inits, body, st) && |names| <= k
    ensures ExpandLet(k, form, st) == Done(form, s)
    ensures Rewritten(form, st, s) && InternalForm(form, names, inits, b, s) && BodyIs(b, body, s)
  {
    hide BindingForm, BindingList, SplitBindings, ListFrom, InternalForm, BodyIs, Nth, Drop, FinishLet;
    FormParts(form, head, names, inits, body, st);
    var bindings := Nth(form, 1, st).v;
    var base := |st.mem|;
    NoList(base, st);
    SplitGives(k, bindings, names, inits, form, 0, [], 0, [], base, st);
    assert Reversed(names) + [] == Reversed(names) && Reversed(inits) + [] == Reversed(inits);
    var lists := SplitBindings(k, bindings, 0, 0, st);
    b, s := FinishGives(k, form, names, inits, body, lists.vs[0], lists.vs[1], base, lists.st);
    RewrittenOn(form, st, lists.st, s);
  }

  lemma RewrittenOn(form: Ptr, st: State, s: State, t: State)
    requires Grows(st, s) && Rewritten(form, s, t) && form < |st.mem|
    ensures Rewritten(form, st, t)
  {
  }

  // ---- What evaluation makes of it ----------------------------------------------------

  /** `h` is a syntactic name: a symbol bound to the symbol `m`, itself bound to a subr of
      one argument that rewrites forms. */
  predicate MacroBound(h: Ptr, m: Ptr, fn: Fn, st: State) {
    && IsSymbol(h, st) && IsSymbol(m, st)
    && h in st.globals && st.globals[h] == m
    && m in st.globals && 0 < st.globals[m] < |st.mem|
    && st.mem[st.globals[m]] == Subr(Exactly(1), fn)
  }

  /** The bindings the system starts with have not been changed. */
  predicate Booted(st: State) {
    && MacroBound(LET, LET_MACRO, LetMacro, st)
    && MacroBound(LET_STAR, LET_STAR_MACRO, LetStarMacro, st)
    && MacroBound(LETREC, LETREC_MACRO, LetrecMacro, st)
    && IsSymbol(SET, st) && SET in st.globals && 0 < st.globals[SET] < |st.mem|
    && st.mem[st.globals[SET]] == FSubr(SetQ)
    && IsSymbol(BEGIN, st) && BEGIN in st.globals && 0 < st.globals[BEGIN] < |st.mem|
    && st.mem[st.globals[BEGIN]] == MSubr(Begin)
    && IsSymbol(QUOTE, st) && QUOTE in st.globals && 0 < st.globals[QUOTE] < |st.mem|
    && st.mem[st.globals[QUOTE]] == FSubr(Quote)
    && IsSymbol(LET_INTERNAL, st) && LET_INTERNAL in st.globals && 0 < st.globals[LET_INTERNAL] < |st.mem|
    && st.mem[st.globals[LET_INTERNAL]] == MSubr(LetInternal)
  }

  /** Four cells are consed up to call a macro: (macro (quote form)). */
  function WithCall(m: Ptr, form: Ptr, st: State): State {
    var p := |st.mem|;
    st.(mem := st.mem + [Cons(form, 0), Cons(QUOTE, p), Cons(p + 1, 0), Cons(m, p + 2)])
  }

  /** The state in which the macro of `let` leaves the form. */
  predicate ByLet(j: nat, form: Ptr, st: State, s: State) {
    ExpandLet(j, form, WithCall(LET_MACRO, form, st)) == Done(form, s)
  }

  /** The macro of `let*` and then that of `let`. */
  predicate ByLetStar(j: nat, form: Ptr, st: State, s: State) {
    var a := ExpandLetStar(form, WithCall(LET_STAR_MACRO, form, st));
    a.Done? && ByLet(j, form, a.st, s)
  }

  /** The macro of `letrec` and then that of `let`. */
  predicate ByLetrec(j: nat, form: Ptr, st: State, s: State) {
    var a := ExpandLetrec(j + 2, form, WithCall(LETREC_MACRO, form, st));
    a.Done? && ByLet(j, form, a.st, s)
  }

  /** A form headed by a syntactic name is handed to the macro, and evaluation goes on with
      what the macro returns. */
  lemma MacroStep(P: Primitives, k: nat, n: nat, h: Ptr, m: Ptr, fn: Fn, form: Ptr, env: Ptr, st: State)
    requires Disciplined(P) && Booted(st) && NoDangling(st) && MacroBound(h, m, fn, st)
    requires IsCons(form, st) && st.mem[form].car == h && Lookup(n, h, env, st) == Done(0, st) && k >= n + 12
    ensures var r := CallFn(P, k - 4, fn, [form], WithCall(m, form, st));
            Eval(P, k, form, env, st) == if r.Done? then Eval(P, k - 2, r.v, env, r.st) else r
  {
    hide CallFn;
    MissStays(n, k - 1, h, env, st, st);
    assert Variable(k - 1, h, env, st) == Done(m, st);
    var p, s := |st.mem|, WithCall(m, form, st);
    assert Eval(P, k, form, env, st) == Call(P, k - 1, m, form, env, st);
    CallMacro(P, k - 2, m, fn, form, st);
  }

  lemma CallMacro(P: Primitives, k: nat, m: Ptr, fn: Fn, form: Ptr, st: State)
    requires Disciplined(P) && Booted(st) && NoDangling(st)
    requires IsSymbol(m, st) && m in st.globals && 0 < st.globals[m] < |st.mem|
    requires st.mem[st.globals[m]] == Subr(Exactly(1), fn) && IsCons(form, st) && k >= 10
    ensures Eval(P, k, |st.mem| + 3, 0, WithCall(m, form, st)) == CallFn(P, k - 2, fn, [form], WithCall(m, form, st))
  {
    hide CallFn, NoDangling;
    var p, s, f := |st.mem|, WithCall(m, form, st), st.globals[m];
    assert Variable(k - 1, m, 0, s) == Done(f, s);
    assert Eval(P, k, p + 3, 0, s) == Call(P, k - 1, f, p + 3, 0, s);
    EvalQuotedHere(P, k - 3, p + 1, form, s);
    assert EvalSome(P, k - 2, 1, p + 2, 0, s) == Values([form], p + 2, s);
  }

  /** Quoting at global level, where nothing can shadow it. */
  lemma EvalQuotedHere(P: Primitives, k: nat, x: Ptr, v: Ptr, st: State)
    requires Disciplined(P) && Quoted(x, v, st) && k >= 5
    requires IsSymbol(QUOTE, st) && QUOTE in st.globals && 0 < st.globals[QUOTE] < |st.mem|
    requires st.mem[st.globals[QUOTE]] == FSubr(Quote)
    ensures Eval(P, k, x, 0, st) == Done(v, st)
  {
    var q := st.globals[QUOTE];
    assert Variable(k - 1, QUOTE, 0, st) == Done(q, st);
    assert Call(P, k - 1, q, x, 0, st) == EvalForm(P, k - 2, Quote, st.mem[x].cdr, 0, st);
  }

  lemma FormStays(form: Ptr, head: Ptr, names: seq<Ptr>, inits: seq<Ptr>, body: Ptr, st: State, s: State)
    requires BindingForm(form, head, names, inits, body, st) && st.mem <= s.mem
    ensures BindingForm(form, head, names, inits, body, s)
  {
    hide BindingList;
    BindingsStay(st.mem[st.mem[form].cdr].car, names, inits, form, st, s);
  }

  /** The first evaluation of a `let` form rewrites it and goes on with the result. */
  lemma LetFirstTime(P: Primitives, k: nat, n: nat, form: Ptr, names: seq<Ptr>, inits: seq<Ptr>, body: Ptr, env: Ptr, st: State)
    returns (b: Ptr, s: State)
    requires Disciplined(P) && Booted(st) && NoDangling(st) && BindingForm(form, LET, names, inits, body, st)
    requires Lookup(n, LET, env, st) == Done(0, st) && k >= n + |names| + 12
    ensures ByLet(k - 4, form, st, s)
    ensures Rewritten(form, st, s) && InternalForm(form, names, inits, b, s) && BodyIs(b, body, s)
    ensures Eval(P, k, form, env, st) == Eval(P, k - 2, form, env, s)
  {
    hide Eval, Booted, BindingForm, InternalForm, BodyIs, NoDangling, ExpandLet;
    FormParts(form, LET, names, inits, body, st);
    FormHead(form, LET, names, inits, body, st);
    LetIsBound(st);
    MacroStep(P, k, n, LET, LET_MACRO, LetMacro, form, env, st);
    var s0 := WithCall(LET_MACRO, form, st);
    FormStays(form, LET, names, inits, body, st, s0);
    b, s := ExpandLetGives(k - 4, form, LET, names, inits, body, s0);
    RewrittenOn(form, st, s0, s);
  }

  lemma FormHead(form: Ptr, head: Ptr, names: seq<Ptr>, inits: seq<Ptr>, body: Ptr, st: State)
    requires BindingForm(form, head, names, inits, body, st)
    ensures IsCons(form, st) && st.mem[form].car == head && |names| == |inits|
    ensures 0 < form < |st.mem|
  {
  }

  lemma LetIsBound(st: State)
    requires Booted(st)
    ensures MacroBound(LET, LET_MACRO, LetMacro, st)
    ensures MacroBound(LET_STAR, LET_STAR_MACRO, LetStarMacro, st)
    ensures MacroBound(LETREC, LETREC_MACRO, LetrecMacro, st)
    ensures LET < |st.mem| && LET_STAR < |st.mem| && SET < |st.mem|
  {
  }

  /** The meaning of a rewritten form: all the inits are evaluated in the environment of
      the form, then the body in that environment with one more frame. */
  function LetMeaning(P: Primitives, k: nat, form: Ptr, env: Ptr, st: State): Outcome
    requires Disciplined(P) && k > 0
    requires IsCons(form, st) && IsCons(st.mem[form].cdr, st) && IsCons(st.mem[st.mem[form].cdr].cdr, st)
  {
    var l := st.mem[form].cdr;
    var a := EvalArgs(P, k - 1, st.mem[st.mem[l].cdr].car, env, st);
    if !a.Done? then a
    else
      var e := Extend(a.v, st.mem[l].car, env, a.st);
      var body := Nth(l, 2, e.st);
      if body.Done? then Eval(P, k, body.v, e.v, e.st) else body
  }

  /** Each later evaluation of the rewritten form goes straight to that meaning. */
  lemma LetEachTime(P: Primitives, k: nat, n: nat, form: Ptr, names: seq<Ptr>, inits: seq<Ptr>, b: Ptr, env: Ptr, st: State)
    requires Disciplined(P) && InternalForm(form, names, inits, b, st) && k >= n + 6
    requires IsSymbol(LET_INTERNAL, st) && LET_INTERNAL in st.globals && 0 < st.globals[LET_INTERNAL] < |st.mem|
    requires st.mem[st.globals[LET_INTERNAL]] == MSubr(LetInternal)
    requires Lookup(k - 1, LET_INTERNAL, env, st) == Done(0, st)
    ensures Eval(P, k, form, env, st) == LetMeaning(P, k - 2, form, env, st)
  {
    hide EvalArgs, ListOf;
    var f, l := st.globals[LET_INTERNAL], st.mem[form].cdr;
    assert Variable(k - 1, LET_INTERNAL, env, st) == Done(f, st);
    assert Eval(P, k, form, env, st) == Call(P, k - 1, f, form, env, st);
    NthOne(l, st);
    var a := EvalArgs(P, k - 3, st.mem[st.mem[l].cdr].car, env, st);
    assert EvalTail(P, k - 2, LetInternal, l, env, st)
        == if !a.Done? then Stop(a)
           else
             var e := Extend(a.v, st.mem[l].car, env, a.st);
             var body := Nth(l, 2, e.st);
             if body.Done? then Again(body.v, e.v, e.st) else Stop(body);
  }

  // ---- Environments do not notice a rewritten form -----------------------------------------

  /** Every cell a lookup in `env` may read. */
  function Touched(k: nat, env: Ptr, st: State): set<Ptr> {
    if k == 0 || !IsCons(env, st) then {}
    else
      var frame := st.mem[env].car;
      {env, frame}
      + (if IsCons(frame, st) then
           FormalCells(k - 1, st.mem[frame].car, st) + ActualCells(k - 1, st.mem[frame].car, st.mem[frame].cdr, st)
         else {})
      + Touched(k - 1, st.mem[env].cdr, st)
  }

  lemma {:induction false} FrameMissKept(k: nat, j: nat, x: Ptr, fl: Ptr, al: Ptr, frame: Ptr, form: Ptr, st: State, s: State)
    requires LookupFrame(k, x, fl, al, frame, st) == Done(0, st) && k <= j
    requires Rewritten(form, st, s) && NoDangling(st) && fl < |st.mem|
    requires form !in FormalCells(k, fl, st) && form !in ActualCells(k, fl, al, st)
    ensures LookupFrame(j, x, fl, al, frame, s) == Done(0, s)
  {
    if IsCons(fl, st) {
      FrameMissKept(k - 1, j - 1, x, st.mem[fl].cdr, st.mem[al].cdr, frame, form, st, s);
    }
  }

  lemma {:induction false} MissKept(k: nat, j: nat, x: Ptr, env: Ptr, form: Ptr, st: State, s: State)
    requires Lookup(k, x, env, st) == Done(0, st) && k <= j
    requires Rewritten(form, st, s) && NoDangling(st) && form !in Touched(k, env, st)
    ensures Lookup(j, x, env, s) == Done(0, s)
  {
    hide Lookup, LookupFrame;
    LookupStep(k, x, env, st);
    LookupStep(j, x, env, s);
    if IsCons(env, st) {
      var frame := st.mem[env].car;
      FrameMissKept(k - 1, j - 1, x, st.mem[frame].car, st.mem[frame].cdr, frame, form, st, s);
      MissKept(k - 1, j - 1, x, st.mem[env].cdr, form, st, s);
    }
  }

  /** None of the names the macros put into forms means anything else in `env`, and the
      form is no part of `env`. */
  predicate Untouched(n: nat, form: Ptr, env: Ptr, st: State) {
    && Lookup(n, LET, env, st) == Done(0, st) && Lookup(n, LET_STAR, env, st) == Done(0, st)
    && Lookup(n, LETREC, env, st) == Done(0, st) && Lookup(n, LET_INTERNAL, env, st) == Done(0, st)
    && Lookup(n, SET, env, st) == Done(0, st) && Lookup(n, BEGIN, env, st) == Done(0, st)
    && form !in Touched(n, env, st)
  }

  lemma BootedKept(form: Ptr, st: State, s: State)
    requires Booted(st) && Rewritten(form, st, s)
    ensures Booted(s)
  {
  }

  lemma InternalBound(st: State)
    requires Booted(st)
    ensures IsSymbol(LET_INTERNAL, st) && LET_INTERNAL in st.globals && 0 < st.globals[LET_INTERNAL] < |st.mem|
    ensures st.mem[st.globals[LET_INTERNAL]] == MSubr(LetInternal)
  {
  }

  /** `let`: the first evaluation means what every evaluation of the rewritten form means,
      with the names and inits of the form in their order and its body. */
  lemma LetMeans(P: Primitives, k: nat, n: nat, form: Ptr, names: seq<Ptr>, inits: seq<Ptr>, body: Ptr, env: Ptr, st: State)
    returns (b: Ptr, s: State)
    requires Disciplined(P) && Booted(st) && NoDangling(st) && BindingForm(form, LET, names, inits, body, st)
    requires Untouched(n, form, env, st) && k >= n + |names| + 12
    ensures ByLet(k - 4, form, st, s)
    ensures Rewritten(form, st, s) && InternalForm(form, names, inits, b, s) && BodyIs(b, body, s)
    ensures Eval(P, k, form, env, st) == LetMeaning(P, k - 4, form, env, s)
  {
    hide Eval, Booted, BindingForm, BodyIs, NoDangling, LetMeaning, Lookup, Touched, Rewritten, ByLet;
    b, s := LetFirstTime(P, k, n, form, names, inits, body, env, st);
    MissKept(n, k - 3, LET_INTERNAL, env, form, st, s);
    BootedKept(form, st, s);
    InternalBound(s);
    LetEachTime(P, k - 2, n, form, names, inits, b, env, s);
  }

  // ---- let* -------------------------------------------------------------------------------

  lemma BindingMoved(b: Ptr, name: Ptr, init: Ptr, form: Ptr, g: Ptr, st: State, s: State)
    requires BindingIs(b, name, init, form, st) && Rewritten(form, st, s)
    requires g == form || g >= |st.mem| || BindingIs(b, name, init, g, st)
    ensures BindingIs(b, name, init, g, s)
  {
    hide Nth;
    NthOne(b, st);
    NthOne(b, s);
  }

  lemma {:induction false} BindingsMoved(p: Ptr, names: seq<Ptr>, inits: seq<Ptr>, form: Ptr, g: Ptr, st: State, s: State)
    requires |names| == |inits| && BindingList(p, names, inits, form, st) && Rewritten(form, st, s)
    requires g == form || g >= |st.mem| || BindingList(p, names, inits, g, st)
    ensures BindingList(p, names, inits, g, s)
    decreases |names|
  {
    hide BindingIs;
    if names != [] {
      BindingMoved(st.mem[p].car, names[0], inits[0], form, g, st, s);
      BindingsMoved(st.mem[p].cdr, names[1..], inits[1..], form, g, st, s);
    }
  }

  lemma OneBinding(p: Ptr, name: Ptr, init: Ptr, form: Ptr, st: State)
    requires IsCons(p, st) && p != form && st.mem[p].cdr == 0 && BindingIs(st.mem[p].car, name, init, form, st)
    ensures BindingList(p, [name], [init], form, st)
  {
    hide BindingIs;
    assert [name][1..] == [] && [init][1..] == [];
  }

  /** The state a `let*` with several bindings is rewritten to. */
  function Peeled(form: Ptr, first: Ptr, others: Ptr, body: Ptr, st: State): State
    requires IsCons(form, st)
  {
    var p := |st.mem|;
    st.(mem := (st.mem + [Cons(others, body), Cons(LET_STAR, p), Cons(p + 1, 0), Cons(first, 0), Cons(p + 3, p + 2)])
               [form := Cons(LET, p + 4)])
  }

  lemma PeelIs(form: Ptr, names: seq<Ptr>, inits: seq<Ptr>, body: Ptr, st: State)
    returns (first: Ptr, others: Ptr)
    requires BindingForm(form, LET_STAR, names, inits, body, st) && |names| >= 2
    ensures ExpandLetStar(form, st) == Done(form, Peeled(form, first, others, body, st))
    ensures BindingIs(first, names[0], inits[0], form, st) && BindingList(others, names[1..], inits[1..], form, st)
    ensures NoDangling(st) ==> first < |st.mem| && others < |st.mem| && body < |st.mem|
    ensures (body == 0 || IsCons(body, st)) && |names| == |inits|
  {
    hide BindingIs;
    var bs := st.mem[st.mem[form].cdr].car;
    first, others := st.mem[bs].car, st.mem[bs].cdr;
    BindingListParts(others, names[1..], inits[1..], form, st);
    NthOne(form, st);
    DropTwo(form, st);
    hide BindingList, Nth, Drop;
  }

  lemma PeeledCells(form: Ptr, first: Ptr, others: Ptr, body: Ptr, st: State)
    requires IsCons(form, st)
    ensures var s, p := Peeled(form, first, others, body, st), |st.mem|;
            && |s.mem| == p + 5 && Rewritten(form, st, s)
            && s.mem[p] == Cons(others, body) && s.mem[p + 1] == Cons(LET_STAR, p) && s.mem[p + 2] == Cons(p + 1, 0)
            && s.mem[p + 3] == Cons(first, 0) && s.mem[p + 4] == Cons(p + 3, p + 2) && s.mem[form] == Cons(LET, p + 4)
  {
  }

  lemma BodyThere(form: Ptr, body: Ptr, st: State, s: State)
    requires (body == 0 || IsCons(body, st)) && body != form && Rewritten(form, st, s)
    ensures body == 0 || IsCons(body, s)
  {
  }

  lemma PeeledIsSound(form: Ptr, first: Ptr, others: Ptr, body: Ptr, st: State)
    requires IsCons(form, st) && NoDangling(st) && first < |st.mem| && others < |st.mem| && body < |st.mem|
    requires LET < |st.mem| && LET_STAR < |st.mem|
    ensures NoDangling(Peeled(form, first, others, body, st))
  {
  }

  /** With two bindings or more, `let*` becomes a `let` of the first around a `let*` of the
      others. */
  lemma PeelOne(form: Ptr, names: seq<Ptr>, inits: seq<Ptr>, body: Ptr, st: State) returns (inner: Ptr, s: State)
    requires BindingForm(form, LET_STAR, names, inits, body, st) && |names| >= 2
    ensures ExpandLetStar(form, st) == Done(form, s) && Rewritten(form, st, s)
    ensures BindingForm(form, LET, [names[0]], [inits[0]], inner + 1, s)
    ensures IsCons(inner + 1, s) && s.mem[inner + 1] == Cons(inner, 0)
    ensures BindingForm(inner, LET_STAR, names[1..], inits[1..], body, s)
    ensures BindingList(s.mem[s.mem[inner].cdr].car, names[1..], inits[1..], form, s)
    ensures inner > |st.mem| && s.mem[inner].cdr > form && (NoDangling(st) && LET_STAR < |st.mem| ==> NoDangling(s))
  {
    hide BindingIs, BindingList, ExpandLetStar, NoDangling, BindingForm, Peeled, Rewritten, Nth, Drop;
    FormHead(form, LET_STAR, names, inits, body, st);
    FormParts(form, LET_STAR, names, inits, body, st);
    var first, others := PeelIs(form, names, inits, body, st);
    PeeledCells(form, first, others, body, st);
    BodyThere(form, body, st, Peeled(form, first, others, body, st));
    if NoDangling(st) && LET_STAR < |st.mem| {
      PeeledIsSound(form, first, others, body, st);
    }
    var p := |st.mem|;
    inner, s := p + 1, Peeled(form, first, others, body, st);
    BindingsMoved(others, names[1..], inits[1..], form, inner, st, s);
    BindingsMoved(others, names[1..], inits[1..], form, form, st, s);
    BindingMoved(first, names[0], inits[0], form, form, st, s);
    OneBinding(p + 3, names[0], inits[0], form, s);
    MakeForm(form, p + 4, LET, [names[0]], [inits[0]], p + 2, s);
    MakeForm(inner, p, LET_STAR, names[1..], inits[1..], body, s);
  }

  lemma MakeForm(form: Ptr, l: Ptr, head: Ptr, names: seq<Ptr>, inits: seq<Ptr>, body: Ptr, st: State)
    requires IsCons(form, st) && st.mem[form] == Cons(head, l) && IsCons(l, st) && l != form && body != form
    requires |names| == |inits| && BindingList(st.mem[l].car, names, inits, form, st)
    requires st.mem[l].cdr == body && (body == 0 || IsCons(body, st))
    ensures BindingForm(form, head, names, inits, body, st)
  {
    hide BindingList;
  }

  lemma {:induction false} FrameTouchedKept(k: nat, j: nat, fl: Ptr, al: Ptr, x: Ptr, frame: Ptr, form: Ptr, st: State, s: State)
    requires LookupFrame(k, x, fl, al, frame, st) == Done(0, st) && k <= j
    requires Rewritten(form, st, s) && NoDangling(st) && fl < |st.mem|
    requires form !in FormalCells(k, fl, st) && form !in ActualCells(k, fl, al, st)
    ensures form !in FormalCells(j, fl, s) && form !in ActualCells(j, fl, al, s)
  {
    if IsCons(fl, st) {
      FrameTouchedKept(k - 1, j - 1, st.mem[fl].cdr, st.mem[al].cdr, x, frame, form, st, s);
    }
  }

  lemma {:induction false} TouchedKept(k: nat, j: nat, x: Ptr, env: Ptr, form: Ptr, st: State, s: State)
    requires Lookup(k, x, env, st) == Done(0, st) && k <= j
    requires Rewritten(form, st, s) && NoDangling(st) && form !in Touched(k, env, st)
    ensures form !in Touched(j, env, s)
  {
    hide Lookup, LookupFrame;
    LookupStep(k, x, env, st);
    if IsCons(env, st) {
      var frame := st.mem[env].car;
      FrameTouchedKept(k - 1, j - 1, st.mem[frame].car, st.mem[frame].cdr, x, frame, form, st, s);
      TouchedKept(k - 1, j - 1, x, st.mem[env].cdr, form, st, s);
    }
  }

  lemma UntouchedKept(n: nat, form: Ptr, env: Ptr, st: State, s: State)
    requires Untouched(n, form, env, st) && Rewritten(form, st, s) && NoDangling(st)
    ensures Untouched(n, form, env, s)
  {
    hide Lookup, Touched, Rewritten, NoDangling;
    MissKept(n, n, LET, env, form, st, s);
    MissKept(n, n, LET_STAR, env, form, st, s);
    MissKept(n, n, LETREC, env, form, st, s);
    MissKept(n, n, LET_INTERNAL, env, form, st, s);
    MissKept(n, n, SET, env, form, st, s);
    MissKept(n, n, BEGIN, env, form, st, s);
    TouchedKept(n, n, LET, env, form, st, s);
  }

  lemma CallKeeps(m: Ptr, form: Ptr, st: State)
    requires NoDangling(st) && IsCons(form, st) && IsSymbol(m, st) && IsSymbol(QUOTE, st)
    ensures Rewritten(form, st, WithCall(m, form, st)) && NoDangling(WithCall(m, form, st))
  {
  }

  lemma RewrittenTwice(form: Ptr, st: State, s: State, t: State)
    requires Rewritten(form, st, s) && Rewritten(form, s, t)
    ensures Rewritten(form, st, t)
  {
  }

  lemma OneFormBody(b: Ptr, inner: Ptr, form: Ptr, st: State, s: State)
    requires Rewritten(form, st, s) && form < inner
    requires IsCons(inner + 1, st) && st.mem[inner + 1] == Cons(inner, 0) && BodyIs(b, inner + 1, s)
    ensures b == inner
  {
  }

  lemma InnerKept(form: Ptr, inner: Ptr, names: seq<Ptr>, inits: seq<Ptr>, body: Ptr, st: State, s: State)
    requires BindingForm(inner, LET_STAR, names, inits, body, st) && Rewritten(form, st, s)
    requires form < inner && st.mem[inner].cdr > form
    requires BindingList(st.mem[st.mem[inner].cdr].car, names, inits, form, st)
    ensures BindingForm(inner, LET_STAR, names, inits, body, s)
  {
    hide BindingList;
    BindingsMoved(st.mem[st.mem[inner].cdr].car, names, inits, form, inner, st, s);
  }

  /** Calling a macro on a form changes nothing else about it or its environment. */
  lemma BeforeMacro(h: Ptr, m: Ptr, fn: Fn, form: Ptr, names: seq<Ptr>, inits: seq<Ptr>, body: Ptr, n: nat, env: Ptr, st: State)
    requires Booted(st) && NoDangling(st) && MacroBound(h, m, fn, st)
    requires BindingForm(form, h, names, inits, body, st) && Untouched(n, form, env, st)
    ensures var s := WithCall(m, form, st);
            && Rewritten(form, st, s) && NoDangling(s) && Booted(s) && Untouched(n, form, env, s)
            && BindingForm(form, h, names, inits, body, s)
  {
    var s := WithCall(m, form, st);
    FormHead(form, h, names, inits, body, st);
    CallKeeps(m, form, st);
    BootedKept(form, st, s);
    UntouchedKept(n, form, env, st, s);
    FormStays(form, h, names, inits, body, st, s);
    hide BindingForm, Untouched, NoDangling, Booted, Rewritten;
  }

  /** `let*` binds one after the other: the first init is evaluated in the environment of
      the form, and the rest is a `let*` evaluated where the first name is bound. */
  lemma LetStarMeans(P: Primitives, k: nat, n: nat, form: Ptr, names: seq<Ptr>, inits: seq<Ptr>, body: Ptr, env: Ptr, st: State)
    returns (inner: Ptr, s: State)
    requires Disciplined(P) && Booted(st) && NoDangling(st) && BindingForm(form, LET_STAR, names, inits, body, st)
    requires Untouched(n, form, env, st) && k >= n + 15 && |names| >= 2
    ensures ByLetStar(k - 6, form, st, s)
    ensures Rewritten(form, st, s) && InternalForm(form, [names[0]], [inits[0]], inner, s)
    ensures BindingForm(inner, LET_STAR, names[1..], inits[1..], body, s)
    ensures Eval(P, k, form, env, st) == LetMeaning(P, k - 6, form, env, s)
  {
    hide Eval, Booted, BindingForm, InternalForm, BodyIs, NoDangling, LetMeaning, Lookup, Touched, Rewritten, BindingIs, BindingList,
         ExpandLetStar, MacroBound, WithCall, ByLet;
    FormHead(form, LET_STAR, names, inits, body, st);
    LetIsBound(st);
    MacroStep(P, k, n, LET_STAR, LET_STAR_MACRO, LetStarMacro, form, env, st);
    BeforeMacro(LET_STAR, LET_STAR_MACRO, LetStarMacro, form, names, inits, body, n, env, st);
    var s0 := WithCall(LET_STAR_MACRO, form, st);
    LetIsBound(s0);
    var s1;
    inner, s1 := PeelOne(form, names, inits, body, s0);
    BootedKept(form, s0, s1);
    UntouchedKept(n, form, env, s0, s1);
    var b;
    b, s := LetMeans(P, k - 2, n, form, [names[0]], [inits[0]], inner + 1, env, s1);
    FormHead(form, LET_STAR, names, inits, body, s0);
    OneFormBody(b, inner, form, s1, s);
    InnerKept(form, inner, names[1..], inits[1..], body, s1, s);
    RewrittenTwice(form, st, s0, s1);
    RewrittenTwice(form, st, s1, s);
  }

  /** With at most one binding `let*` is `let`. */
  lemma LetStarOfOne(P: Primitives, k: nat, n: nat, form: Ptr, names: seq<Ptr>, inits: seq<Ptr>, body: Ptr, env: Ptr, st: State)
    returns (b: Ptr, s: State)
    requires Disciplined(P) && Booted(st) && NoDangling(st) && BindingForm(form, LET_STAR, names, inits, body, st)
    requires Untouched(n, form, env, st) && k >= n + 16 && |names| <= 1
    ensures ByLetStar(k - 6, form, st, s)
    ensures Rewritten(form, st, s) && InternalForm(form, names, inits, b, s) && BodyIs(b, body, s)
    ensures Eval(P, k, form, env, st) == LetMeaning(P, k - 6, form, env, s)
  {
    hide Eval, Booted, BindingForm, InternalForm, BodyIs, NoDangling, LetMeaning, Lookup, Touched, Rewritten, BindingIs, BindingList,
         ExpandLetStar, MacroBound, WithCall, ByLet;
    FormHead(form, LET_STAR, names, inits, body, st);
    LetIsBound(st);
    MacroStep(P, k, n, LET_STAR, LET_STAR_MACRO, LetStarMacro, form, env, st);
    BeforeMacro(LET_STAR, LET_STAR_MACRO, LetStarMacro, form, names, inits, body, n, env, st);
    var s0 := WithCall(LET_STAR_MACRO, form, st);
    var s1 := RenameHead(form, names, inits, body, s0);
    BootedKept(form, s0, s1);
    UntouchedKept(n, form, env, s0, s1);
    b, s := LetMeans(P, k - 2, n, form, names, inits, body, env, s1);
    RewrittenTwice(form, st, s0, s1);
    RewrittenTwice(form, st, s1, s);
  }

  lemma RenameHead(form: Ptr, names: seq<Ptr>, inits: seq<Ptr>, body: Ptr, st: State) returns (s: State)
    requires BindingForm(form, LET_STAR, names, inits, body, st) && |names| <= 1 && NoDangling(st) && Booted(st)
    ensures ExpandLetStar(form, st) == Done(form, s) && Rewritten(form, st, s) && NoDangling(s)
    ensures BindingForm(form, LET, names, inits, body, s)
  {
    hide BindingIs;
    LetIsBound(st);
    var bs := st.mem[st.mem[form].cdr].car;
    NthOne(form, st);
    DropTwo(form, st);
    s := SetCar(form, LET, st);
    BindingsMoved(bs, names, inits, form, form, st, s);
  }

  // ---- letrec -------------------------------------------------------------------------------

  function Nils(n: nat): (s: seq<Ptr>)
    ensures |s| == n
  {
    if n == 0 then [] else [0] + Nils(n - 1)
  }

  /** The form (set! name init). */
  predicate SetForm(x: Ptr, name: Ptr, init: Ptr, form: Ptr, st: State) {
    && x != form && IsCons(x, st) && st.mem[x].car == SET
    && var a := st.mem[x].cdr;
       && a != form && IsCons(a, st) && st.mem[a].car == name
       && var b := st.mem[a].cdr;
          b != form && IsCons(b, st) && st.mem[b] == Cons(init, 0)
  }

  /** The assignments in order, and then the forms of `body`. */
  predicate SetForms(p: Ptr, names: seq<Ptr>, inits: seq<Ptr>, body: Ptr, form: Ptr, st: State)
    requires |names| == |inits|
    decreases |names|
  {
    if names == [] then p == body
    else
      && p != form && IsCons(p, st) && SetForm(st.mem[p].car, names[0], inits[0], form, st)
      && SetForms(st.mem[p].cdr, names[1..], inits[1..], body, form, st)
  }

  /** The bindings of `letrec` have to be lists. */
  predicate PairList(p: Ptr, n: nat, st: State)
    decreases n
  {
    if n == 0 then p == 0
    else IsCons(p, st) && !IsSymbol(st.mem[p].car, st) && PairList(st.mem[p].cdr, n - 1, st)
  }

  predicate PairForm(form: Ptr, n: nat, st: State) {
    IsCons(form, st) && IsCons(st.mem[form].cdr, st) && PairList(st.mem[st.mem[form].cdr].car, n, st)
  }

  lemma {:induction false} SetFormsStay(p: Ptr, names: seq<Ptr>, inits: seq<Ptr>, body: Ptr, form: Ptr, st: State, s: State)
    requires |names| == |inits| && SetForms(p, names, inits, body, form, st) && Rewritten(form, st, s)
    ensures SetForms(p, names, inits, body, form, s)
    decreases |names|
  {
    if names != [] {
      SetFormsStay(st.mem[p].cdr, names[1..], inits[1..], body, form, st, s);
    }
  }

  lemma {:induction false} PairsStay(p: Ptr, n: nat, names: seq<Ptr>, inits: seq<Ptr>, form: Ptr, st: State, s: State)
    requires |names| == |inits| == n && BindingList(p, names, inits, form, st)
    requires PairList(p, n, st) && st.mem <= s.mem
    ensures PairList(p, n, s)
    decreases n
  {
    hide Nth;
    if n > 0 {
      PairsStay(st.mem[p].cdr, n - 1, names[1..], inits[1..], form, st, s);
    }
  }

  /** One turn of the loop of `siod_letrec_macro`: a binding to nothing and an assignment. */
  function AfterOne(name: Ptr, init: Ptr, letb: Ptr, setb: Ptr, st: State): State {
    var p := |st.mem|;
    st.(mem := st.mem + [Cons(name, 0), Cons(p, letb), Cons(init, 0), Cons(name, p + 2), Cons(SET, p + 3), Cons(p + 4, setb)])
  }

  lemma SplitLetrecStep(k: nat, l: Ptr, names: seq<Ptr>, inits: seq<Ptr>, form: Ptr, letb: Ptr, setb: Ptr, st: State)
    requires 0 < |names| == |inits| <= k && BindingList(l, names, inits, form, st) && PairList(l, |names|, st)
    ensures 0 < l < |st.mem| && st.mem[l].Cons?
    ensures SplitLetrec(k, l, letb, setb, st)
         == SplitLetrec(k - 1, st.mem[l].cdr, |st.mem| + 1, |st.mem| + 5, AfterOne(names[0], inits[0], letb, setb, st))
  {
    hide Nth;
  }

  lemma OneMore(name: Ptr, init: Ptr, letb: Ptr, lnames: seq<Ptr>, setb: Ptr, linits: seq<Ptr>, body: Ptr, form: Ptr, st: State)
    requires |lnames| == |linits| && 0 < form < |st.mem| && IsCons(form, st)
    requires BindingList(letb, lnames, Nils(|lnames|), form, st) && SetForms(setb, lnames, linits, body, form, st)
    ensures var s, p := AfterOne(name, init, letb, setb, st), |st.mem|;
            && Rewritten(form, st, s)
            && BindingList(p + 1, [name] + lnames, Nils(|lnames| + 1), form, s)
            && SetForms(p + 5, [name] + lnames, [init] + linits, body, form, s)
  {
    hide BindingIs;
    var s, p := AfterOne(name, init, letb, setb, st), |st.mem|;
    BindingsMoved(letb, lnames, Nils(|lnames|), form, form, st, s);
    SetFormsStay(setb, lnames, linits, body, form, st, s);
    NameAlone(p, name, form, s);
    assert ([name] + lnames)[1..] == lnames && ([init] + linits)[1..] == linits;
    assert Nils(|lnames| + 1)[1..] == Nils(|lnames|);
  }

  lemma NameAlone(p: Ptr, name: Ptr, form: Ptr, st: State)
    requires IsCons(p, st) && st.mem[p] == Cons(name, 0) && p != form && form != 0
    ensures BindingIs(p, name, 0, form, st)
  {
    hide Nth;
    NthOne(p, st);
  }

  lemma {:induction false} SplitLetrecGives(k: nat, l: Ptr, names: seq<Ptr>, inits: seq<Ptr>,
                                            letb: Ptr, lnames: seq<Ptr>, setb: Ptr, linits: seq<Ptr>, body: Ptr, form: Ptr, st: State)
    requires |names| == |inits| <= k && |lnames| == |linits| && 0 < form < |st.mem| && IsCons(form, st)
    requires BindingList(l, names, inits, form, st) && PairList(l, |names|, st)
    requires BindingList(letb, lnames, Nils(|lnames|), form, st) && SetForms(setb, lnames, linits, body, form, st)
    ensures var r := SplitLetrec(k, l, letb, setb, st);
            && r.Values? && st.mem <= r.st.mem && Rewritten(form, st, r.st)
            && BindingList(r.vs[0], Reversed(names) + lnames, Nils(|names| + |lnames|), form, r.st)
            && SetForms(r.vs[1], Reversed(names) + lnames, Reversed(inits) + linits, body, form, r.st)
    decreases |names|
  {
    hide BindingIs, BindingList, SetForms, Reversed, Rewritten, PairList, Nils, SplitLetrec;
    if names == [] {
      SplitLetrecNone(k, l, letb, lnames, setb, linits, body, form, st, inits);
    } else {
      BindingListParts(l, names, inits, form, st);
      SplitLetrecStep(k, l, names, inits, form, letb, setb, st);
      OneMore(names[0], inits[0], letb, lnames, setb, linits, body, form, st);
      var s, p := AfterOne(names[0], inits[0], letb, setb, st), |st.mem|;
      PairsParts(l, |names|, st);
      BindingsStay(st.mem[l].cdr, names[1..], inits[1..], form, st, s);
      PairsStay(st.mem[l].cdr, |names| - 1, names[1..], inits[1..], form, st, s);
      SplitLetrecGives(k - 1, st.mem[l].cdr, names[1..], inits[1..],
                       p + 1, [names[0]] + lnames, p + 5, [inits[0]] + linits, body, form, s);
      ReversedOnto(names, lnames);
      ReversedOnto(inits, linits);
      RewrittenTwice(form, st, s, SplitLetrec(k, l, letb, setb, st).st);
    }
  }

  lemma PairsParts(l: Ptr, n: nat, st: State)
    requires n > 0 && PairList(l, n, st)
    ensures 0 < l < |st.mem| && st.mem[l].Cons? && PairList(st.mem[l].cdr, n - 1, st)
  {
  }

  lemma SplitLetrecNone(k: nat, l: Ptr, letb: Ptr, lnames: seq<Ptr>, setb: Ptr, linits: seq<Ptr>, body: Ptr, form: Ptr, st: State,
                        inits: seq<Ptr>)
    requires |lnames| == |linits| && 0 < form < |st.mem| && IsCons(form, st)
    requires inits == [] && BindingList(l, [], inits, form, st)
    requires BindingList(letb, lnames, Nils(|lnames|), form, st) && SetForms(setb, lnames, linits, body, form, st)
    ensures var r := SplitLetrec(k, l, letb, setb, st);
            && r.Values? && st.mem <= r.st.mem && Rewritten(form, st, r.st)
            && BindingList(r.vs[0], Reversed([]) + lnames, Nils(0 + |lnames|), form, r.st)
            && SetForms(r.vs[1], Reversed([]) + lnames, Reversed(inits) + linits, body, form, r.st)
  {
    assert [] + lnames == lnames && [] + linits == linits;
  }

  /** `letrec` becomes a `let` that binds every name to nothing around assignments, the last
      binding's first, and then the body. */
  lemma ExpandLetrecGives(k: nat, form: Ptr, names: seq<Ptr>, inits: seq<Ptr>, body: Ptr, st: State)
    returns (setb: Ptr, s: State)
    requires BindingForm(form, LETREC, names, inits, body, st) && |names| <= k
    requires PairForm(form, |names|, st)
    ensures ExpandLetrec(k, form, st) == Done(form, s) && Rewritten(form, st, s)
    ensures BindingForm(form, LET, Reversed(names), Nils(|names|), setb, s)
    ensures SetForms(setb, Reversed(names), Reversed(inits), body, form, s)
  {
    hide BindingList, SetForms, Reversed, PairList, Nils, SplitLetrec, BindingIs;
    NthOne(form, st);
    DropTwo(form, st);
    var l := st.mem[st.mem[form].cdr].car;
    StartLetrec(body, form, st);
    SplitLetrecGives(k, l, names, inits, 0, [], body, [], body, form, st);
    var r := SplitLetrec(k, l, 0, body, st);
    assert Reversed(names) + [] == Reversed(names) && Reversed(inits) + [] == Reversed(inits);
    setb := r.vs[1];
    var p := |r.st.mem|;
    s := r.st.(mem := (r.st.mem + [Cons(r.vs[0], setb)])[form := Cons(LET, p)]);
    BindingsMoved(r.vs[0], Reversed(names), Nils(|names|), form, form, r.st, s);
    SetFormsStay(setb, Reversed(names), Reversed(inits), body, form, r.st, s);
    SetFormsBegin(setb, Reversed(names), Reversed(inits), body, form, s);
  }

  lemma StartLetrec(body: Ptr, form: Ptr, st: State)
    ensures BindingList(0, [], Nils(0), form, st) && SetForms(body, [], [], body, form, st)
  {
  }

  lemma SetFormsBegin(p: Ptr, names: seq<Ptr>, inits: seq<Ptr>, body: Ptr, form: Ptr, st: State)
    requires |names| == |inits| && SetForms(p, names, inits, body, form, st)
    requires body != form && (body == 0 || IsCons(body, st))
    ensures p != form && (p == 0 || IsCons(p, st))
  {
  }

  lemma {:induction false} SplitLetrecSound(k: nat, l: Ptr, letb: Ptr, setb: Ptr, st: State)
    requires NoDangling(st) && l < |st.mem| && letb < |st.mem| && setb < |st.mem| && SET < |st.mem|
    ensures var r := SplitLetrec(k, l, letb, setb, st);
            r.Values? ==> NoDangling(r.st) && r.vs[0] < |r.st.mem| && r.vs[1] < |r.st.mem| && |st.mem| <= |r.st.mem|
  {
    if l != 0 && k > 0 && IsCons(l, st) {
      var b, next := st.mem[l].car, st.mem[l].cdr;
      var name, init := Car(b, st), Nth(b, 1, st);
      if name.Done? && init.Done? {
        NthOne(b, st);
        hide Nth;
        OneSound(name.v, init.v, letb, setb, st);
        SplitLetrecSound(k - 1, next, |st.mem| + 1, |st.mem| + 5, AfterOne(name.v, init.v, letb, setb, st));
      }
    }
  }

  lemma OneSound(name: Ptr, init: Ptr, letb: Ptr, setb: Ptr, st: State)
    requires NoDangling(st) && name < |st.mem| && init < |st.mem| && letb < |st.mem| && setb < |st.mem| && SET < |st.mem|
    ensures NoDangling(AfterOne(name, init, letb, setb, st))
  {
  }

  lemma RewriteSound(form: Ptr, a: Ptr, b: Ptr, st: State)
    requires NoDangling(st) && a < |st.mem| && b < |st.mem| && 0 < form < |st.mem| && LET < |st.mem|
    ensures NoDangling(st.(mem := (st.mem + [Cons(a, b)])[form := Cons(LET, |st.mem|)]))
  {
  }

  lemma LetrecSound(k: nat, form: Ptr, names: seq<Ptr>, inits: seq<Ptr>, body: Ptr, st: State)
    requires BindingForm(form, LETREC, names, inits, body, st) && NoDangling(st) && LET < |st.mem| && SET < |st.mem|
    ensures var r := ExpandLetrec(k, form, st); r.Done? ==> NoDangling(r.st)
  {
    hide SplitLetrec, BindingList;
    NthOne(form, st);
    DropTwo(form, st);
    var l := st.mem[st.mem[form].cdr].car;
    assert l < |st.mem| && body < |st.mem|;
    SplitLetrecSound(k, l, 0, body, st);
    var r := SplitLetrec(k, l, 0, body, st);
    if r.Values? {
      RewriteSound(form, r.vs[0], r.vs[1], r.st);
    }
  }

  /** The rewriting of a `letrec` form by its first evaluation. */
  lemma LetrecFirstTime(P: Primitives, k: nat, n: nat, form: Ptr, names: seq<Ptr>, inits: seq<Ptr>, body: Ptr, env: Ptr, st: State)
    returns (setb: Ptr, s: State)
    requires Disciplined(P) && Booted(st) && NoDangling(st) && BindingForm(form, LETREC, names, inits, body, st)
    requires PairForm(form, |names|, st)
    requires Untouched(n, form, env, st) && k >= n + |names| + 12
    ensures ExpandLetrec(k - 4, form, WithCall(LETREC_MACRO, form, st)) == Done(form, s)
    ensures Rewritten(form, st, s) && Booted(s) && NoDangling(s) && Untouched(n, form, env, s)
    ensures BindingForm(form, LET, Reversed(names), Nils(|names|), setb, s)
    ensures SetForms(setb, Reversed(names), Reversed(inits), body, form, s)
    ensures Eval(P, k, form, env, st) == Eval(P, k - 2, form, env, s)
  {
    hide *;
    LetrecReady(form, names, inits, body, st);
    UntouchedParts(n, form, env, st);
    FormHead(form, LETREC, names, inits, body, st);
    LetIsBound(st);
    MacroStep(P, k, n, LETREC, LETREC_MACRO, LetrecMacro, form, env, st);
    BeforeMacro(LETREC, LETREC_MACRO, LetrecMacro, form, names, inits, body, n, env, st);
    var s0 := WithCall(LETREC_MACRO, form, st);
    LetIsBound(s0);
    CallLetrec(P, k - 4, form, s0);
    setb, s := ExpandLetrecGives(k - 4, form, names, inits, body, s0);
    LetrecSound(k - 4, form, names, inits, body, s0);
    BootedKept(form, s0, s);
    UntouchedKept(n, form, env, s0, s);
    RewrittenTwice(form, st, s0, s);
  }

  lemma CallLetrec(P: Primitives, k: nat, form: Ptr, st: State)
    requires Disciplined(P)
    ensures CallFn(P, k, LetrecMacro, [form], st) == ExpandLetrec(k, form, st)
  {
  }

  lemma UntouchedParts(n: nat, form: Ptr, env: Ptr, st: State)
    requires Untouched(n, form, env, st)
    ensures Lookup(n, LETREC, env, st) == Done(0, st)
  {
  }

  /** `letrec`: every name is bound to nothing in one new frame; there the names are set to
      their inits, the last one first, and then the body is evaluated. */
  lemma LetrecMeans(P: Primitives, k: nat, n: nat, form: Ptr, names: seq<Ptr>, inits: seq<Ptr>, body: Ptr, env: Ptr, st: State)
    returns (setb: Ptr, b: Ptr, s: State)
    requires Disciplined(P) && Booted(st) && NoDangling(st) && BindingForm(form, LETREC, names, inits, body, st)
    requires PairForm(form, |names|, st)
    requires Untouched(n, form, env, st) && k >= n + |names| + 15
    ensures ByLetrec(k - 6, form, st, s)
    ensures Rewritten(form, st, s) && InternalForm(form, Reversed(names), Nils(|names|), b, s)
    ensures BodyIs(b, setb, s) && SetForms(setb, Reversed(names), Reversed(inits), body, form, s)
    ensures Eval(P, k, form, env, st) == LetMeaning(P, k - 6, form, env, s)
  {
    hide Eval, Booted, BindingForm, InternalForm, BodyIs, NoDangling, LetMeaning, Untouched, Rewritten, PairForm, SetForms,
         Reversed, Nils, ByLet;
    FormHead(form, LETREC, names, inits, body, st);
    var s1;
    setb, s1 := LetrecFirstTime(P, k, n, form, names, inits, body, env, st);
    b, s := LetMeans(P, k - 2, n, form, Reversed(names), Nils(|names|), setb, env, s1);
    SetFormsStay(setb, Reversed(names), Reversed(inits), body, form, s1, s);
    RewrittenTwice(form, st, s1, s);
  }

  lemma LetrecReady(form: Ptr, names: seq<Ptr>, inits: seq<Ptr>, body: Ptr, st: State)
    requires BindingForm(form, LETREC, names, inits, body, st) && PairForm(form, |names|, st)
    ensures PairForm(form, |names|, WithCall(LETREC_MACRO, form, st))
  {
    PairsStay(st.mem[st.mem[form].cdr].car, |names|, names, inits, form, st, WithCall(LETREC_MACRO, form, st));
  }
}
