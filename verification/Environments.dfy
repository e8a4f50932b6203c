/** What extending an environment, `set!` and `define` do to every variable in sight
    (src/slib.c:1572-1595, 1827-1861).  Environments are lists of frames in memory, and
    several of them may share frames. */
module Environments {
  import opened Application
  import opened Evaluator

  /** The cells of a list of formals. */
  function FormalCells(k: nat, fl: Ptr, st: State): set<Ptr> {
    if k == 0 || !IsCons(fl, st) then {} else {fl} + FormalCells(k - 1, st.mem[fl].cdr, st)
  }

  /** The cells whose CAR a lookup in `env` may read to find its way. */
  function Structure(k: nat, env: Ptr, st: State): set<Ptr> {
    if k == 0 || !IsCons(env, st) then {}
    else
      var frame := st.mem[env].car;
      {env, frame}
      + (if IsCons(frame, st) then FormalCells(k - 1, st.mem[frame].car, st) else {})
      + Structure(k - 1, st.mem[env].cdr, st)
  }

  /** The variables, as frame and name, that keep their value in the cell `c`. */
  function FrameOwners(k: nat, fl: Ptr, al: Ptr, frame: Ptr, c: Ptr, st: State): set<(Ptr, Ptr)> {
    if k == 0 || !IsCons(fl, st) || !IsCons(al, st) then {}
    else
      (if al == c then {(frame, st.mem[fl].car)} else {})
      + FrameOwners(k - 1, st.mem[fl].cdr, st.mem[al].cdr, frame, c, st)
  }

  function Owners(k: nat, env: Ptr, c: Ptr, st: State): set<(Ptr, Ptr)> {
    if k == 0 || !IsCons(env, st) || !IsCons(st.mem[env].car, st) then {}
    else
      var frame := st.mem[env].car;
      FrameOwners(k - 1, st.mem[frame].car, st.mem[frame].cdr, frame, c, st)
      + Owners(k - 1, st.mem[env].cdr, c, st)
  }

  /** Argument lists are not shared: the cell `c` is no part of the structure of either
      environment and belongs to one variable only. */
  predicate Unshared(k: nat, c: Ptr, env: Ptr, other: Ptr, st: State) {
    && c !in Structure(k, env, st) && c !in Structure(k, other, st)
    && forall a, b :: a in Owners(k, env, c, st) && b in Owners(k, other, c, st) ==> a == b
  }

  /** Every frame has an actual for each formal. */
  predicate FrameSound(k: nat, fl: Ptr, al: Ptr, st: State) {
    k > 0 && (IsCons(fl, st) ==> IsCons(al, st) && FrameSound(k - 1, st.mem[fl].cdr, st.mem[al].cdr, st))
  }

  predicate Sound(k: nat, env: Ptr, st: State) {
    && k > 0
    && (!IsCons(env, st) ==> env == 0)
    && (IsCons(env, st) ==>
          var frame := st.mem[env].car;
          && IsCons(frame, st)
          && FrameSound(k - 1, st.mem[frame].car, st.mem[frame].cdr, st)
          && Sound(k - 1, st.mem[env].cdr, st))
  }

  // ---- Lookups and changed cells ---------------------------------------------------

  lemma {:induction false} SoundFrameFinds(k: nat, x: Ptr, fl: Ptr, al: Ptr, frame: Ptr, st: State)
    requires FrameSound(k, fl, al, st)
    ensures LookupFrame(k, x, fl, al, frame, st).Done?
  {
    if IsCons(fl, st) {
      SoundFrameFinds(k - 1, x, st.mem[fl].cdr, st.mem[al].cdr, frame, st);
    }
  }

  /** In a sound environment every lookup comes to an end without an error. */
  lemma {:induction false} SoundFinds(k: nat, x: Ptr, env: Ptr, st: State)
    requires Sound(k, env, st)
    ensures Lookup(k, x, env, st).Done?
  {
    hide Lookup, LookupFrame;
    LookupStep(k, x, env, st);
    if IsCons(env, st) {
      var frame := st.mem[env].car;
      SoundFrameFinds(k - 1, x, st.mem[frame].car, st.mem[frame].cdr, frame, st);
      SoundFinds(k - 1, x, st.mem[env].cdr, st);
    }
  }

  lemma {:induction false} FoundInFrame(k: nat, x: Ptr, fl: Ptr, al: Ptr, frame: Ptr, c: Ptr, st: State)
    requires LookupFrame(k, x, fl, al, frame, st) == Done(c, st) && c != 0
    ensures (frame, x) in FrameOwners(k, fl, al, frame, c, st)
  {
    if st.mem[fl].car != x {
      FoundInFrame(k - 1, x, st.mem[fl].cdr, st.mem[al].cdr, frame, c, st);
    }
  }

  /** A cell that is found for `x` is owned by `x`. */
  lemma {:induction false} FoundIsOwned(k: nat, x: Ptr, env: Ptr, c: Ptr, st: State) returns (frame: Ptr)
    requires Lookup(k, x, env, st) == Done(c, st) && c != 0
    ensures (frame, x) in Owners(k, env, c, st)
  {
    frame := st.mem[env].car;
    var r := LookupFrame(k - 1, x, st.mem[frame].car, st.mem[frame].cdr, frame, st);
    FoundAnyway(k - 1, x, st.mem[env].cdr, st, env, st.mem[env].cdr);
    if r.v == 0 {
      frame := FoundIsOwned(k - 1, x, st.mem[env].cdr, c, st);
    } else {
      FoundInFrame(k - 1, x, st.mem[frame].car, st.mem[frame].cdr, frame, c, st);
    }
  }

  /** Two lookups, in states of equal size, come to the same cell; a dotted parameter makes
      the same fresh one in both. */
  predicate SameCell(a: Outcome, b: Outcome, st: State, s: State) {
    && a.Done? && b.Done? && a.v == b.v
    && (a.v < |st.mem| ==> a.st == st && b.st == s)
    && (a.v >= |st.mem| ==>
          && IsCons(a.v, a.st) && IsCons(b.v, b.st)
          && a.st.mem[a.v] == b.st.mem[b.v])
  }

  lemma {:induction false} FrameUnmoved(k: nat, y: Ptr, fl: Ptr, al: Ptr, frame: Ptr, c: Ptr, v: Ptr, st: State)
    requires IsCons(c, st) && c !in FormalCells(k, fl, st)
    requires LookupFrame(k, y, fl, al, frame, st).Done?
    ensures SameCell(LookupFrame(k, y, fl, al, frame, st), LookupFrame(k, y, fl, al, frame, SetCar(c, v, st)),
                     st, SetCar(c, v, st))
  {
    if IsCons(fl, st) && st.mem[fl].car != y {
      FrameUnmoved(k - 1, y, st.mem[fl].cdr, st.mem[al].cdr, frame, c, v, st);
    }
  }

  /** Storing a value never changes which cell a variable is found in. */
  lemma {:induction false} LookupUnmoved(k: nat, y: Ptr, env: Ptr, c: Ptr, v: Ptr, st: State)
    requires IsCons(c, st) && c !in Structure(k, env, st)
    requires Lookup(k, y, env, st).Done?
    ensures SameCell(Lookup(k, y, env, st), Lookup(k, y, env, SetCar(c, v, st)), st, SetCar(c, v, st))
  {
    hide Lookup, LookupFrame;
    LookupStep(k, y, env, st);
    LookupStep(k, y, env, SetCar(c, v, st));
    if IsCons(env, st) {
      var frame := st.mem[env].car;
      FrameUnmoved(k - 1, y, st.mem[frame].car, st.mem[frame].cdr, frame, c, v, st);
      if LookupFrame(k - 1, y, st.mem[frame].car, st.mem[frame].cdr, frame, st).v == 0 {
        LookupUnmoved(k - 1, y, st.mem[env].cdr, c, v, st);
      }
    }
  }

  lemma {:induction false} FrameStaysSound(k: nat, fl: Ptr, al: Ptr, c: Ptr, v: Ptr, st: State)
    requires IsCons(c, st) && c !in FormalCells(k, fl, st) && FrameSound(k, fl, al, st)
    ensures FrameSound(k, fl, al, SetCar(c, v, st))
  {
    if IsCons(fl, st) {
      FrameStaysSound(k - 1, st.mem[fl].cdr, st.mem[al].cdr, c, v, st);
    }
  }

  lemma {:induction false} StaysSound(k: nat, env: Ptr, c: Ptr, v: Ptr, st: State)
    requires IsCons(c, st) && c !in Structure(k, env, st) && Sound(k, env, st)
    ensures Sound(k, env, SetCar(c, v, st))
  {
    if IsCons(env, st) {
      var frame := st.mem[env].car;
      FrameStaysSound(k - 1, st.mem[frame].car, st.mem[frame].cdr, c, v, st);
      StaysSound(k - 1, st.mem[env].cdr, c, v, st);
    }
  }

  /** A variable's value, when it has one. */
  function Seen(k: nat, x: Ptr, env: Ptr, st: State): Ptr
    requires Variable(k, x, env, st).Done?
  {
    Variable(k, x, env, st).v
  }

  /** The update law for `set!` on a local variable.  Afterwards the variable has the new
      value; in every environment, whether or not it shares the frame, each other variable
      has the value it had; and one of the same name has the new value exactly when it is
      the same variable, living in the same cell. */
  lemma SetLocal(k: nat, x: Ptr, v: Ptr, env: Ptr, c: Ptr, y: Ptr, other: Ptr, st: State)
    requires IsSymbol(x, st) && Lookup(k, x, env, st) == Done(c, st) && c != 0
    requires Unshared(k, c, env, other, st) && Sound(k, env, st) && Sound(k, other, st)
    ensures SetVar(k, x, v, env, st).Done?
    ensures var s := SetVar(k, x, v, env, st).st;
            && Variable(k, x, env, s) == Done(v, s)
            && Sound(k, env, s) && Sound(k, other, s)
            && (Variable(k, y, other, st).Done? ==>
                  && Variable(k, y, other, s).Done?
                  && (Lookup(k, y, other, st).v == c ==> y == x && Seen(k, y, other, s) == v)
                  && (Lookup(k, y, other, st).v != c ==> Seen(k, y, other, s) == Seen(k, y, other, st)))
  {
    hide Lookup, Structure, Owners, Sound;
    LookupUnmoved(k, x, env, c, v, st);
    StaysSound(k, env, c, v, st);
    StaysSound(k, other, c, v, st);
    SoundFinds(k, y, other, st);
    LookupUnmoved(k, y, other, c, v, st);
    if Lookup(k, y, other, st).v == c {
      var f := FoundIsOwned(k, x, env, c, st);
      var g := FoundIsOwned(k, y, other, c, st);
      assert (f, x) == (g, y);
    }
  }

  /** And on a global one: nothing but the global value of `x` changes. */
  lemma SetGlobal(k: nat, x: Ptr, v: Ptr, env: Ptr, y: Ptr, other: Ptr, st: State)
    requires IsSymbol(x, st) && Lookup(k, x, env, st) == Done(0, st) && Lookup(k, y, other, st).Done?
    ensures SetVar(k, x, v, env, st).Done?
    ensures var s := SetVar(k, x, v, env, st).st;
            && Variable(k, x, env, s) == Done(v, s)
            && s.mem == st.mem
            && (Variable(k, y, other, st).Done? ==>
                  && Variable(k, y, other, s).Done?
                  && Seen(k, y, other, s)
                     == if Lookup(k, y, other, st).v == 0 && y == x then v else Seen(k, y, other, st))
  {
    hide Lookup;
    var g := st.globals[x := v];
    GlobalsDontMatter(k, x, env, st, g);
    GlobalsDontMatter(k, y, other, st, g);
  }

  lemma {:induction false} FrameGlobals(k: nat, x: Ptr, fl: Ptr, al: Ptr, frame: Ptr, st: State, g: map<Ptr, Ptr>)
    requires LookupFrame(k, x, fl, al, frame, st).Done?
    ensures var r := LookupFrame(k, x, fl, al, frame, st);
            LookupFrame(k, x, fl, al, frame, st.(globals := g)) == Done(r.v, r.st.(globals := g))
  {
    if IsCons(fl, st) && st.mem[fl].car != x {
      FrameGlobals(k - 1, x, st.mem[fl].cdr, st.mem[al].cdr, frame, st, g);
    }
  }

  lemma {:induction false} GlobalsDontMatter(k: nat, x: Ptr, env: Ptr, st: State, g: map<Ptr, Ptr>)
    requires Lookup(k, x, env, st).Done?
    ensures var r := Lookup(k, x, env, st);
            Lookup(k, x, env, st.(globals := g)) == Done(r.v, r.st.(globals := g))
  {
    hide Lookup, LookupFrame;
    LookupStep(k, x, env, st);
    LookupStep(k, x, env, st.(globals := g));
    if IsCons(env, st) {
      var frame := st.mem[env].car;
      FrameGlobals(k - 1, x, st.mem[frame].car, st.mem[frame].cdr, frame, st, g);
      if LookupFrame(k - 1, x, st.mem[frame].car, st.mem[frame].cdr, frame, st).v == 0 {
        GlobalsDontMatter(k - 1, x, st.mem[env].cdr, st, g);
      }
    }
  }

  // ---- A new variable ----------------------------------------------------------------

  /** The cells of the actuals that go with a list of formals. */
  function ActualCells(k: nat, fl: Ptr, al: Ptr, st: State): set<Ptr> {
    if k == 0 || !IsCons(fl, st) || !IsCons(al, st) then {}
    else {al} + ActualCells(k - 1, st.mem[fl].cdr, st.mem[al].cdr, st)
  }

  /** Every cell of an environment but its frames' own. */
  function Lists(k: nat, env: Ptr, st: State): set<Ptr> {
    if k == 0 || !IsCons(env, st) || !IsCons(st.mem[env].car, st) then {}
    else
      var f := st.mem[st.mem[env].car];
      {env} + FormalCells(k - 1, f.car, st) + ActualCells(k - 1, f.car, f.cdr, st)
      + Lists(k - 1, st.mem[env].cdr, st)
  }

  /** `s` is `st` with more memory and, of the old cells, a new frame cell `f`. */
  predicate ReplacesFrame(f: Ptr, st: State, s: State) {
    && IsCons(f, st) && IsCons(f, s) && |st.mem| <= |s.mem|
    && forall q :: 0 <= q < |st.mem| && q != f ==> s.mem[q] == st.mem[q]
  }

  /** Both lookups miss, or both find cells with the same value. */
  predicate SameValue(a: Outcome, b: Outcome) {
    && a.Done? && b.Done? && (a.v == 0 <==> b.v == 0)
    && (a.v != 0 ==> IsCons(a.v, a.st) && IsCons(b.v, b.st) && a.st.mem[a.v].car == b.st.mem[b.v].car)
  }

  lemma {:induction false} FrameSame(k: nat, j: nat, y: Ptr, fl: Ptr, al: Ptr, frame: Ptr, f: Ptr, st: State, s: State)
    requires ReplacesFrame(f, st, s) && NoDangling(st) && fl < |st.mem| && al < |st.mem| && k <= j
    requires f !in FormalCells(k, fl, st) && f !in ActualCells(k, fl, al, st) && FrameSound(k, fl, al, st)
    ensures SameValue(LookupFrame(k, y, fl, al, frame, st), LookupFrame(j, y, fl, al, frame, s))
    ensures FrameSound(j, fl, al, s)
  {
    if IsCons(fl, st) {
      FrameSame(k - 1, j - 1, y, st.mem[fl].cdr, st.mem[al].cdr, frame, f, st, s);
    }
  }

  /** The state after `define` has put `x` in front of the frame `f`. */
  predicate Adds(f: Ptr, x: Ptr, v: Ptr, st: State, s: State) {
    && ReplacesFrame(f, st, s)
    && var p := s.mem[f].car;
       var q := s.mem[f].cdr;
       && IsCons(p, s) && s.mem[p] == Cons(x, st.mem[f].car)
       && IsCons(q, s) && s.mem[q] == Cons(v, st.mem[f].cdr)
  }

  lemma {:induction false} OthersSame(k: nat, y: Ptr, env: Ptr, f: Ptr, x: Ptr, v: Ptr, st: State, s: State)
    requires Adds(f, x, v, st, s) && NoDangling(st) && y != x && env < |st.mem|
    requires f !in Lists(k, env, st) && Sound(k, env, st)
    ensures SameValue(Lookup(k, y, env, st), Lookup(k + 1, y, env, s))
    ensures Sound(k + 1, env, s)
  {
    hide Lookup;
    LookupStep(k, y, env, st);
    LookupStep(k + 1, y, env, s);
    if IsCons(env, st) {
      var frame := st.mem[env].car;
      var fl, al := st.mem[frame].car, st.mem[frame].cdr;
      FrameSame(k - 1, if frame == f then k - 1 else k, y, fl, al, frame, f, st, s);
      OthersSame(k - 1, y, st.mem[env].cdr, f, x, v, st, s);
      hide FrameSound;
      if frame == f {
        NewVariablePassed(k, y, f, x, v, st, s);
      }
    }
  }

  lemma NewVariablePassed(k: nat, y: Ptr, f: Ptr, x: Ptr, v: Ptr, st: State, s: State)
    requires Adds(f, x, v, st, s) && y != x && k > 0
    ensures LookupFrame(k, y, s.mem[f].car, s.mem[f].cdr, f, s)
            == LookupFrame(k - 1, y, st.mem[f].car, st.mem[f].cdr, f, s)
    ensures FrameSound(k, s.mem[f].car, s.mem[f].cdr, s) <==> FrameSound(k - 1, st.mem[f].car, st.mem[f].cdr, s)
  {
  }

  /** The update law for `define` of a new variable in a local environment: it can be seen
      there with its value, no other variable changes in any environment, and every frame
      still has actuals enough. */
  lemma DefineLocal(k: nat, x: Ptr, v: Ptr, env: Ptr, y: Ptr, other: Ptr, st: State)
    requires Lookup(k, x, env, st) == Done(0, st) && env != 0 && other < |st.mem|
    requires Sound(k, env, st) && Sound(k, other, st) && NoDangling(st)
    requires IsCons(env, st) && st.mem[env].car !in Lists(k, env, st) && st.mem[env].car !in Lists(k, other, st)
    ensures DefineVar(k, x, v, env, st).Done?
    ensures var s := DefineVar(k, x, v, env, st).st;
            && Variable(k + 1, x, env, s) == Done(v, s)
            && Sound(k + 1, env, s) && Sound(k + 1, other, s)
            && (y != x && Variable(k, y, other, st).Done? ==>
                  Variable(k + 1, y, other, s).Done? && Seen(k + 1, y, other, s) == Seen(k, y, other, st))
            && (st.mem[env].car !in Structure(k, other, st) && Variable(k, y, other, st).Done? ==>
                  Variable(k, y, other, s).Done? && Seen(k, y, other, s) == Seen(k, y, other, st))
  {
    var s := DefineVar(k, x, v, env, st).st;
    var f := st.mem[env].car;
    assert Adds(f, x, v, st, s);
    hide Lists, Structure;
    if f !in Structure(k, other, st) {
      DefineElsewhere(k, y, other, f, x, v, st, s);
    }
    OthersSame(k, if y != x then y else x + 1, other, f, x, v, st, s);
    OthersSame(k, x + 1, env, f, x, v, st, s);
    NewVariableSeen(k, x, v, env, f, st, s);
    hide Lookup, Sound, Adds;
  }

  /** A `define` of a variable that there is already, or at top level, is an assignment. */
  lemma DefineKnown(k: nat, x: Ptr, v: Ptr, env: Ptr, st: State)
    requires IsSymbol(x, st) && Lookup(k, x, env, st).Done? && (Lookup(k, x, env, st).v != 0 || env == 0)
    ensures DefineVar(k, x, v, env, st) == SetVar(k, x, v, env, st)
  {
  }

  /** So the update law for it is that of `set!`. */
  lemma DefineExisting(k: nat, x: Ptr, v: Ptr, env: Ptr, c: Ptr, y: Ptr, other: Ptr, st: State)
    requires IsSymbol(x, st) && Lookup(k, x, env, st) == Done(c, st) && c != 0
    requires Unshared(k, c, env, other, st) && Sound(k, env, st) && Sound(k, other, st)
    ensures DefineVar(k, x, v, env, st).Done?
    ensures var s := DefineVar(k, x, v, env, st).st;
            && Variable(k, x, env, s) == Done(v, s)
            && Sound(k, env, s) && Sound(k, other, s)
            && (Variable(k, y, other, st).Done? ==>
                  && Variable(k, y, other, s).Done?
                  && (Lookup(k, y, other, st).v == c ==> y == x && Seen(k, y, other, s) == v)
                  && (Lookup(k, y, other, st).v != c ==> Seen(k, y, other, s) == Seen(k, y, other, st)))
  {
    hide Lookup, Unshared, Sound, SetVar, DefineVar;
    DefineKnown(k, x, v, env, st);
    SetLocal(k, x, v, env, c, y, other, st);
  }

  lemma NewVariableSeen(k: nat, x: Ptr, v: Ptr, env: Ptr, f: Ptr, st: State, s: State)
    requires Adds(f, x, v, st, s) && IsCons(env, st) && st.mem[env].car == f && env != f && k > 0
    ensures Variable(k + 1, x, env, s) == Done(v, s)
  {
  }

  // ---- A new frame ---------------------------------------------------------------------

  /** A list of the formals `names`, ending in NIL or in the dotted parameter `rest`; no names
      at all leave `rest` alone. */
  predicate FormalsAre(fl: Ptr, names: seq<Ptr>, rest: Ptr, st: State)
    decreases |names|
  {
    if names == [] then fl == rest && (rest == 0 || IsSymbol(rest, st))
    else IsCons(fl, st) && st.mem[fl].car == names[0] && FormalsAre(st.mem[fl].cdr, names[1..], rest, st)
  }

  lemma {:induction false} FormalsStay(fl: Ptr, names: seq<Ptr>, rest: Ptr, st: State, s: State)
    requires FormalsAre(fl, names, rest, st) && st.mem <= s.mem
    ensures FormalsAre(fl, names, rest, s)
    decreases |names|
  {
    if names != [] {
      FormalsStay(st.mem[fl].cdr, names[1..], rest, st, s);
    }
  }

  /** `r` is a lookup of `y` that finds its actual among `vs`: the one that goes with the
      first formal of that name; for the dotted parameter, a list of the actuals that are
      left over; nothing for any other name. */
  predicate FindsActual(r: Outcome, y: Ptr, names: seq<Ptr>, rest: Ptr, vs: seq<Ptr>, st: State)
    requires |names| <= |vs|
  {
    && r.Done? && st.mem <= r.st.mem
    && if y in names then
         && r.st == st && IsCons(r.v, st)
         && exists i :: 0 <= i < |names| && names[i] == y && y !in names[..i] && st.mem[r.v].car == vs[i]
       else if y == rest && rest != 0 then
         IsCons(r.v, r.st) && ListOf(r.st.mem[r.v].car, vs[|names|..], st)
       else r == Done(0, st)
  }

  /** A frame with actuals enough for its formals gives each of them its actual. */
  lemma {:induction false} FrameBinds(k: nat, y: Ptr, fl: Ptr, al: Ptr, names: seq<Ptr>, rest: Ptr, vs: seq<Ptr>, frame: Ptr, st: State)
    requires FormalsAre(fl, names, rest, st) && ListOf(al, vs, st) && |names| <= |vs| && k > |names|
    ensures FrameSound(k, fl, al, st)
    ensures FindsActual(LookupFrame(k, y, fl, al, frame, st), y, names, rest, vs, st)
    ensures y == rest && rest != 0 && y !in names ==> LookupFrame(k, y, fl, al, frame, st).v == |st.mem|
    decreases |names|
  {
    if names == [] {
      assert vs[0..] == vs;
    } else {
      FrameBinds(k - 1, y, st.mem[fl].cdr, st.mem[al].cdr, names[1..], rest, vs[1..], frame, st);
      if names[0] == y {
        assert y !in names[..0];
      } else {
        var r := LookupFrame(k - 1, y, st.mem[fl].cdr, st.mem[al].cdr, frame, st);
        assert vs[1..][|names| - 1..] == vs[|names|..];
        if y in names {
          var i :| 0 <= i < |names| - 1 && names[1..][i] == y && y !in names[1..][..i] && st.mem[r.v].car == vs[1..][i];
          assert names[..i + 1] == [names[0]] + names[1..][..i];
        }
      }
    }
  }

  /** A new environment gives each formal its actual and a dotted parameter, or one that
      stands for all of them, the list of the actuals left over; every other name it lets
      through, and all its frames have actuals enough.  The dotted one alone is found in a
      cell made for it. */
  lemma ExtendBinds(k: nat, names: seq<Ptr>, rest: Ptr, vs: seq<Ptr>, formals: Ptr, actuals: Ptr, env: Ptr, y: Ptr, st: State)
    requires FormalsAre(formals, names, rest, st) && ListOf(actuals, vs, st) && |names| <= |vs| && k > |names| + 1
    requires Sound(k, env, st) && NoDangling(st) && env < |st.mem|
    ensures var e := Extend(actuals, formals, env, st);
            && Sound(k + 1, e.v, e.st)
            && if y in names || (y == rest && rest != 0) then
                 && FindsActual(Lookup(k + 1, y, e.v, e.st), y, names, rest, vs, e.st)
                 && (Lookup(k + 1, y, e.v, e.st).v >= |e.st.mem| <==> y !in names && !IsSymbol(formals, st))
               else SameValue(Lookup(k, y, env, st), Lookup(k + 1, y, e.v, e.st))
  {
    hide NoDangling;
    var e := Extend(actuals, formals, env, st);
    ListStays(actuals, vs, st, e.st);
    EnvGrows(k, y, env, st, e.st);
    LookupStep(k + 1, y, e.v, e.st);
    var f := e.st.mem[e.v].car;
    if IsSymbol(formals, st) {
      OneFormal(k, y, formals, actuals, vs, f, e.st);
    } else {
      FormalsStay(formals, names, rest, st, e.st);
      FrameBinds(k, y, formals, actuals, names, rest, vs, f, e.st);
    }
    hide ListOf, FormalsAre;
  }

  lemma OneFormal(k: nat, y: Ptr, rest: Ptr, actuals: Ptr, vs: seq<Ptr>, f: Ptr, st: State)
    requires k > 1 && IsCons(f, st) && ListOf(actuals, vs, st) && rest != 0
    requires var c := st.mem[f]; IsCons(c.car, st) && IsCons(c.cdr, st) && st.mem[c.car] == Cons(rest, 0) && st.mem[c.cdr] == Cons(actuals, 0)
    ensures var r := LookupFrame(k, y, st.mem[f].car, st.mem[f].cdr, f, st);
            && FrameSound(k, st.mem[f].car, st.mem[f].cdr, st)
            && if y == rest then r == Done(st.mem[f].cdr, st) && ListOf(st.mem[r.v].car, vs[0..], st) else r == Done(0, st)
  {
    assert vs[0..] == vs;
  }

  lemma {:induction false} FrameGrows(k: nat, y: Ptr, fl: Ptr, al: Ptr, frame: Ptr, st: State, s: State)
    requires st.mem <= s.mem && NoDangling(st) && fl < |st.mem| && al < |st.mem| && FrameSound(k, fl, al, st)
    ensures SameValue(LookupFrame(k, y, fl, al, frame, st), LookupFrame(k, y, fl, al, frame, s))
    ensures FrameSound(k, fl, al, s)
  {
    if IsCons(fl, st) {
      FrameGrows(k - 1, y, st.mem[fl].cdr, st.mem[al].cdr, frame, st, s);
    }
  }

  lemma {:induction false} EnvGrows(k: nat, y: Ptr, env: Ptr, st: State, s: State)
    requires st.mem <= s.mem && NoDangling(st) && env < |st.mem| && Sound(k, env, st)
    ensures SameValue(Lookup(k, y, env, st), Lookup(k, y, env, s))
    ensures Sound(k, env, s)
  {
    hide Lookup, LookupFrame;
    LookupStep(k, y, env, st);
    LookupStep(k, y, env, s);
    if IsCons(env, st) {
      var frame := st.mem[env].car;
      FrameGrows(k - 1, y, st.mem[frame].car, st.mem[frame].cdr, frame, st, s);
      EnvGrows(k - 1, y, st.mem[env].cdr, st, s);
    }
  }

  // ---- Dotted parameters -----------------------------------------------------------------

  lemma {:induction false} FrameCell(k: nat, x: Ptr, fl: Ptr, al: Ptr, frame: Ptr, st: State)
    requires LookupFrame(k, x, fl, al, frame, st).Done?
    ensures var r := LookupFrame(k, x, fl, al, frame, st);
            if r.v == 0 || r.v < |st.mem| then r.st == st
            else r.v == |st.mem| && IsCons(r.v, r.st) && r.st == Alloc(Cons(r.st.mem[r.v].car, 0), st)
  {
    if IsCons(fl, st) && st.mem[fl].car != x {
      FrameCell(k - 1, x, st.mem[fl].cdr, st.mem[al].cdr, frame, st);
    }
  }

  /** A lookup comes to an old cell, or makes one new one, for a dotted parameter. */
  lemma {:induction false} FoundCell(k: nat, x: Ptr, env: Ptr, st: State)
    requires Lookup(k, x, env, st).Done?
    ensures var r := Lookup(k, x, env, st);
            if r.v == 0 || r.v < |st.mem| then r.st == st
            else r.v == |st.mem| && IsCons(r.v, r.st) && r.st == Alloc(Cons(r.st.mem[r.v].car, 0), st)
  {
    hide Lookup, LookupFrame;
    LookupStep(k, x, env, st);
    if IsCons(env, st) {
      var frame := st.mem[env].car;
      FrameCell(k - 1, x, st.mem[frame].car, st.mem[frame].cdr, frame, st);
      if LookupFrame(k - 1, x, st.mem[frame].car, st.mem[frame].cdr, frame, st).v == 0 {
        FoundCell(k - 1, x, st.mem[env].cdr, st);
      }
    }
  }

  /** The formals `fl` end in the dotted parameter `x` and have no other of that name. */
  ghost predicate DottedIn(x: Ptr, fl: Ptr, st: State) {
    exists names :: FormalsAre(fl, names, x, st) && x !in names
  }

  predicate ListedIn(k: nat, x: Ptr, fl: Ptr, st: State) {
    k > 0 && IsCons(fl, st) && (st.mem[fl].car == x || ListedIn(k - 1, x, st.mem[fl].cdr, st))
  }

  /** The first frame of `env` that binds `x` has it as its dotted parameter. */
  ghost predicate BoundAsRest(k: nat, x: Ptr, env: Ptr, st: State) {
    && k > 0 && IsCons(env, st) && IsCons(st.mem[env].car, st)
    && var fl := st.mem[st.mem[env].car].car;
       DottedIn(x, fl, st) || (!ListedIn(k - 1, x, fl, st) && BoundAsRest(k - 1, x, st.mem[env].cdr, st))
  }

  lemma DottedBelow(x: Ptr, fl: Ptr, st: State)
    requires IsCons(fl, st) && IsSymbol(x, st) && st.mem[fl].car != x
    ensures DottedIn(x, fl, st) <==> DottedIn(x, st.mem[fl].cdr, st)
  {
    var y := st.mem[fl].car;
    if DottedIn(x, fl, st) {
      var names :| FormalsAre(fl, names, x, st) && x !in names;
      assert FormalsAre(st.mem[fl].cdr, names[1..], x, st) && x !in names[1..];
    }
    if DottedIn(x, st.mem[fl].cdr, st) {
      var names :| FormalsAre(st.mem[fl].cdr, names, x, st) && x !in names;
      assert ([y] + names)[1..] == names;
      assert FormalsAre(fl, [y] + names, x, st) && x !in [y] + names;
    }
  }

  lemma DottedHere(x: Ptr, fl: Ptr, st: State)
    requires IsSymbol(x, st)
    ensures !IsCons(fl, st) ==> (DottedIn(x, fl, st) <==> fl == x)
    ensures IsCons(fl, st) && st.mem[fl].car == x ==> !DottedIn(x, fl, st)
  {
    if fl == x {
      assert FormalsAre(fl, [], x, st);
    }
  }

  /** The search makes a cell exactly for a dotted parameter. */
  lemma {:induction false} FrameMakesCell(k: nat, x: Ptr, fl: Ptr, al: Ptr, frame: Ptr, st: State)
    requires IsSymbol(x, st) && LookupFrame(k, x, fl, al, frame, st).Done?
    ensures var r := LookupFrame(k, x, fl, al, frame, st);
            && (r.v >= |st.mem| <==> DottedIn(x, fl, st))
            && (r.v == 0 <==> !DottedIn(x, fl, st) && !ListedIn(k, x, fl, st))
  {
    hide DottedIn;
    DottedHere(x, fl, st);
    if IsCons(fl, st) && st.mem[fl].car != x {
      DottedBelow(x, fl, st);
      FrameMakesCell(k - 1, x, st.mem[fl].cdr, st.mem[al].cdr, frame, st);
    }
  }

  lemma {:induction false} MakesCell(k: nat, x: Ptr, env: Ptr, st: State)
    requires IsSymbol(x, st) && Lookup(k, x, env, st).Done?
    ensures Lookup(k, x, env, st).v >= |st.mem| <==> BoundAsRest(k, x, env, st)
  {
    hide Lookup, LookupFrame, DottedIn, ListedIn;
    LookupStep(k, x, env, st);
    if IsCons(env, st) {
      var frame := st.mem[env].car;
      FrameMakesCell(k - 1, x, st.mem[frame].car, st.mem[frame].cdr, frame, st);
      if LookupFrame(k - 1, x, st.mem[frame].car, st.mem[frame].cdr, frame, st).v == 0 {
        MakesCell(k - 1, x, st.mem[env].cdr, st);
      }
    }
  }

  /** An assignment to a local variable is lost exactly when the first frame that binds it
      has it as its dotted parameter: the new value then goes into a copy. */
  lemma SetSeenExactly(k: nat, x: Ptr, v: Ptr, env: Ptr, st: State)
    requires IsSymbol(x, st) && Lookup(k, x, env, st).Done? && Lookup(k, x, env, st).v != 0
    requires Lookup(k, x, env, st).v !in Structure(k, env, st)
    requires Sound(k, env, st) && NoDangling(st) && env < |st.mem|
    ensures SetVar(k, x, v, env, st).Done?
    ensures var s := SetVar(k, x, v, env, st).st;
            && Variable(k, x, env, s).Done?
            && Seen(k, x, env, s) == if BoundAsRest(k, x, env, st) then Seen(k, x, env, st) else v
  {
    hide Lookup, Structure, Sound, NoDangling, BoundAsRest;
    FoundCell(k, x, env, st);
    MakesCell(k, x, env, st);
    var r := Lookup(k, x, env, st);
    if r.v < |st.mem| {
      LookupUnmoved(k, x, env, r.v, v, st);
    } else {
      EnvGrows(k, x, env, st, SetCar(r.v, v, r.st));
    }
  }

  /** An environment with one frame: the symbol 1 is bound to the number in 4 and the symbol
      2, the dotted parameter, to a list of the other argument, the same number. */
  function RestExample(): State {
    State([Symbol, Symbol, Symbol, Cons(1, 2), Number(7), Cons(4, 6), Cons(4, 0), Cons(3, 5), Cons(7, 0)], map[], [])
  }

  /** There an assignment to the dotted parameter is lost. */
  lemma RestKeepsItsValue()
    ensures var st := RestExample();
            && Variable(5, 2, 8, st).Done? && Seen(5, 2, 8, st) == 6
            && SetVar(5, 2, 4, 8, st).Done? && SetVar(5, 2, 4, 8, st).v == 4
            && var s := SetVar(5, 2, 4, 8, st).st; Variable(5, 2, 8, s).Done? && Seen(5, 2, 8, s) == 6
  {
    var st := RestExample();
    assert LookupFrame(3, 2, 2, 6, 7, st) == NewCons(6, 0, st);
    assert LookupFrame(4, 2, 3, 5, 7, st) == NewCons(6, 0, st);
    assert Lookup(5, 2, 8, st) == NewCons(6, 0, st);
    var s := SetVar(5, 2, 4, 8, st).st;
    assert LookupFrame(3, 2, 2, 6, 7, s) == NewCons(6, 0, s);
    assert LookupFrame(4, 2, 3, 5, 7, s) == NewCons(6, 0, s);
    assert Lookup(5, 2, 8, s) == NewCons(6, 0, s);
  }

  /** Where the frame that `define` adds to is no part of an environment, nothing changes at
      all, not even for a variable of that name. */
  lemma {:induction false} DefineElsewhere(k: nat, y: Ptr, env: Ptr, f: Ptr, x: Ptr, v: Ptr, st: State, s: State)
    requires Adds(f, x, v, st, s) && NoDangling(st) && env < |st.mem|
    requires f !in Structure(k, env, st) && f !in Lists(k, env, st) && Sound(k, env, st)
    ensures SameValue(Lookup(k, y, env, st), Lookup(k, y, env, s)) && Sound(k, env, s)
  {
    hide Lookup, LookupFrame;
    LookupStep(k, y, env, st);
    LookupStep(k, y, env, s);
    if IsCons(env, st) {
      var frame := st.mem[env].car;
      FrameSame(k - 1, k - 1, y, st.mem[frame].car, st.mem[frame].cdr, frame, f, st, s);
      DefineElsewhere(k - 1, y, st.mem[env].cdr, f, x, v, st, s);
    }
  }
}
