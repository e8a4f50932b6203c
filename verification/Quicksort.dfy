/** `qsort` (src/sliba.c:1438-1463, 1490-1511): a recursive list quicksort with random
    pivots that puts its parts together destructively, in a memory of conses. */
module Quicksort {
  import Data

  datatype Value = Nil | Atom(n: int) | Ref(p: nat)

  datatype Pair = Pair(car: Value, cdr: Value)

  type Cells = seq<Pair>

  /** The list at `l` holds `vs` and ends in `end`, which is no cons. */
  predicate Ending(l: Value, vs: seq<Value>, end: Value, cells: Cells)
    decreases |vs|
  {
    if vs == [] then l == end && !end.Ref?
    else l.Ref? && l.p < |cells| && cells[l.p].car == vs[0] && Ending(cells[l.p].cdr, vs[1..], end, cells)
  }

  /** A proper list of `vs` whose cells all lie from `lo` up to `hi`. */
  predicate Within(l: Value, vs: seq<Value>, lo: nat, hi: nat, cells: Cells)
    decreases |vs|
  {
    if vs == [] then l == Value.Nil
    else
      && l.Ref? && lo <= l.p < hi && l.p < |cells| && cells[l.p].car == vs[0]
      && Within(cells[l.p].cdr, vs[1..], lo, hi, cells)
  }

  lemma {:induction false} WithinStays(l: Value, vs: seq<Value>, lo: nat, hi: nat, lo': nat, hi': nat, a: Cells, b: Cells)
    requires Within(l, vs, lo, hi, a) && lo' <= lo && hi <= hi' && |a| <= |b|
    requires forall p :: lo <= p < hi && p < |a| ==> a[p] == b[p]
    ensures Within(l, vs, lo', hi', b)
    decreases |vs|
  {
    if vs != [] {
      WithinStays(a[l.p].cdr, vs[1..], lo, hi, lo', hi', a, b);
    }
  }

  lemma {:induction false} WithinEnds(l: Value, vs: seq<Value>, lo: nat, hi: nat, cells: Cells)
    requires Within(l, vs, lo, hi, cells)
    ensures Ending(l, vs, Value.Nil, cells)
    decreases |vs|
  {
    if vs != [] {
      WithinEnds(cells[l.p].cdr, vs[1..], lo, hi, cells);
    }
  }

  lemma {:induction false} EndingStays(l: Value, vs: seq<Value>, end: Value, a: Cells, b: Cells)
    requires Ending(l, vs, end, a) && a <= b
    ensures Ending(l, vs, end, b)
    decreases |vs|
  {
    if vs != [] {
      EndingStays(a[l.p].cdr, vs[1..], end, a, b);
    }
  }

  // ---- Order --------------------------------------------------------------------------

  type Comparison = (Value, Value) -> bool

  /** The comparison of two elements, through the key function if there is one. */
  predicate Less(f: Comparison, g: Data.Option<Value -> Value>, a: Value, b: Value) {
    if g.Some? then f(g.value(a), g.value(b)) else f(a, b)
  }

  ghost predicate Asymmetric(f: Comparison, g: Data.Option<Value -> Value>) {
    forall a, b :: Less(f, g, a, b) ==> !Less(f, g, b, a)
  }

  ghost predicate Transitive(f: Comparison, g: Data.Option<Value -> Value>) {
    forall a, b, c :: Less(f, g, a, b) && Less(f, g, b, c) ==> Less(f, g, a, c)
  }

  /** No later element is less than an earlier one. */
  ghost predicate Ordered(f: Comparison, g: Data.Option<Value -> Value>, s: seq<Value>) {
    forall i, j :: 0 <= i < j < |s| ==> !(if g.Some? then f(g.value(s[j]), g.value(s[i])) else f(s[j], s[i]))
  }

  /** Every element of `s` is on the given side of `mark`. */
  ghost predicate Side(f: Comparison, g: Data.Option<Value -> Value>, s: seq<Value>, mark: Value, less: bool) {
    forall i :: 0 <= i < |s| ==> Less(f, g, s[i], mark) == less
  }

  lemma SameElements(f: Comparison, g: Data.Option<Value -> Value>, s: seq<Value>, t: seq<Value>, mark: Value, less: bool)
    requires Side(f, g, s, mark, less) && multiset(s) == multiset(t)
    ensures Side(f, g, t, mark, less)
  {
    forall i | 0 <= i < |t| ensures Less(f, g, t[i], mark) == less {
      assert t[i] in multiset(s);
    }
  }

  lemma JoinOrdered(f: Comparison, g: Data.Option<Value -> Value>, a: seq<Value>, mark: Value, b: seq<Value>)
    requires Asymmetric(f, g) && Transitive(f, g)
    requires Ordered(f, g, a) && Ordered(f, g, b) && Side(f, g, a, mark, true) && Side(f, g, b, mark, false)
    ensures Ordered(f, g, a + ([mark] + b))
  {
    var s := a + ([mark] + b);
    forall i, j | 0 <= i < j < |s|
      ensures !(if g.Some? then f(g.value(s[j]), g.value(s[i])) else f(s[j], s[i]))
    {
      assert Less(f, g, s[j], s[i]) == if g.Some? then f(g.value(s[j]), g.value(s[i])) else f(s[j], s[i]);
      if i < |a| && j > |a| {
        var x, y := a[i], b[j - |a| - 1];
        assert Less(f, g, x, mark) && !Less(f, g, y, mark);
      }
    }
  }

  class ListMemory {
    var cells: Cells

    constructor ()
      ensures cells == []
    {
      cells := [];
    }

    method NewCons(a: Value, d: Value) returns (r: Value)
      modifies this
      ensures cells == old(cells) + [Pair(a, d)] && r == Ref(|old(cells)|)
    {
      r := Ref(|cells|);
      cells := cells + [Pair(a, d)];
    }

    /** `siod_last` of a list that is not empty. */
    method Last(l: Value, ghost vs: seq<Value>, ghost lo: nat, ghost hi: nat) returns (v1: Value)
      requires vs != [] && Within(l, vs, lo, hi, cells)
      ensures IsLast(l, vs, lo, hi, v1, cells)
    {
      v1 := l;
      var v2 := cells[v1.p].cdr;
      ghost var rest := vs;
      while v2.Ref?
        invariant rest != [] && Within(v1, rest, lo, hi, cells) && v2 == cells[v1.p].cdr
        invariant forall v :: IsLast(v1, rest, lo, hi, v, cells) ==> IsLast(l, vs, lo, hi, v, cells)
        decreases |rest|
      {
        v1 := v2;
        v2 := cells[v1.p].cdr;
        rest := rest[1..];
      }
    }

    /** `siod_nconc` */
    method Nconc(a: Value, b: Value, ghost vs: seq<Value>, ghost ws: seq<Value>, ghost lo: nat, ghost hi: nat) returns (r: Value)
      requires Within(a, vs, lo, hi, cells) && Within(b, ws, hi, |cells|, cells) && lo <= hi <= |cells|
      modifies this
      ensures Within(r, vs + ws, lo, |cells|, cells)
      ensures |cells| == |old(cells)| && cells[..lo] == old(cells)[..lo]
    {
      if a == Value.Nil {
        WithinStays(b, ws, hi, |cells|, lo, |cells|, cells, cells);
        assert vs + ws == ws;
        return b;
      }
      var last := Last(a, vs, lo, hi);
      Hang(a, vs, lo, hi, last, b, ws, cells);
      LastBounds(a, vs, lo, hi, last, cells);
      cells := cells[last.p := Pair(cells[last.p].car, b)];
      return a;
    }

    /** The counting loop: the length and what the list ends in. */
    method Count(l: Value, ghost vs: seq<Value>, ghost end: Value) returns (n: nat, v: Value)
      requires Ending(l, vs, end, cells)
      ensures n == |vs| && v == end
    {
      n, v := 0, l;
      ghost var rest := vs;
      while v.Ref?
        invariant Ending(v, rest, end, cells) && n + |rest| == |vs|
        decreases |rest|
      {
        v, n := cells[v.p].cdr, n + 1;
        rest := rest[1..];
      }
    }

    /** The element at position `j`. */
    method Pick(l: Value, j: nat, ghost vs: seq<Value>, ghost end: Value) returns (mark: Value)
      requires Ending(l, vs, end, cells) && j < |vs|
      ensures mark == vs[j]
    {
      var v, n := l, 0;
      ghost var rest := vs;
      while n < j
        invariant n <= j && Ending(v, rest, end, cells) && rest == vs[n..]
      {
        v, n := cells[v.p].cdr, n + 1;
        rest := rest[1..];
      }
      mark := cells[v.p].car;
    }

    /** The loop that consses every other element onto one of two new lists. */
    method Partition(l: Value, j: nat, mark: Value, f: Comparison, g: Data.Option<Value -> Value>, ghost vs: seq<Value>)
      returns (less: Value, notless: Value, ghost ls: seq<Value>, ghost ns: seq<Value>)
      requires Ending(l, vs, Value.Nil, cells) && j < |vs| && mark == vs[j]
      modifies this
      ensures old(cells) <= cells
      ensures Within(less, ls, |old(cells)|, |cells|, cells) && Within(notless, ns, |old(cells)|, |cells|, cells)
      ensures Side(f, g, ls, mark, true) && Side(f, g, ns, mark, false)
      ensures multiset(ls) + multiset(ns) + multiset{mark} == multiset(vs)
    {
      hide Less, Ending, Within, Side;
      less, notless, ls, ns := Value.Nil, Value.Nil, [], [];
      var v, n := l, 0;
      ghost var rest := vs;
      ghost var base := |cells|;
      NothingParted(f, g, mark, base, cells);
      while v != Value.Nil
        invariant 0 <= n <= |vs| && rest == vs[n..] && old(cells) <= cells && Ending(v, rest, Value.Nil, cells)
        invariant Parted(f, g, less, ls, notless, ns, mark, base, cells)
        invariant Taken(vs, n, j, ls, ns)
        decreases |rest|
      {
        EndingStep(v, rest, Value.Nil, cells);
        TakenStep(vs, n, j, ls, ns);
        var x := cells[v.p].car;
        var next := cells[v.p].cdr;
        if j != n {
          ghost var before := cells;
          if Less(f, g, x, mark) {
            less := NewCons(x, less);
            PartLess(f, g, less, x, ls, notless, ns, mark, base, before, cells);
            ls := [x] + ls;
          } else {
            notless := NewCons(x, notless);
            PartNotLess(f, g, less, ls, notless, x, ns, mark, base, before, cells);
            ns := [x] + ns;
          }
          EndingStays(next, rest[1..], Value.Nil, before, cells);
        }
        v, n := next, n + 1;
        rest := rest[1..];
      }
      EndingDone(rest, cells);
      assert vs[..n] == vs;
    }

    /** The mark goes in front of the sorted second part, and that onto the first. */
    method Assemble(a: Value, mark: Value, b: Value, ghost xs: seq<Value>, ghost ys: seq<Value>, ghost lo: nat, ghost hi: nat)
      returns (r: Value)
      requires lo <= hi <= |cells| && Within(a, xs, lo, hi, cells) && Within(b, ys, hi, |cells|, cells)
      modifies this
      ensures Within(r, xs + ([mark] + ys), lo, |cells|, cells)
      ensures |cells| > |old(cells)| && cells[..lo] == old(cells)[..lo]
    {
      hide Within;
      var c := NewCons(mark, b);
      Pushed(c, mark, ys, hi, old(cells), cells);
      WithinStays(a, xs, lo, hi, lo, hi, old(cells), cells);
      r := Nconc(a, c, xs, [mark] + ys, lo, hi);
    }

    /** `siod_lqsort`, whatever the random numbers: an error for an improper list; for a
        proper one a list in new cells that is a permutation in which no later element is
        less than an earlier one, while every cell there was keeps its contents. */
    method Qsort(l: Value, f: Comparison, g: Data.Option<Value -> Value>, ghost vs: seq<Value>, ghost end: Value)
      returns (r: Value, ok: bool, ghost out: seq<Value>)
      requires Ending(l, vs, end, cells) && Asymmetric(f, g) && Transitive(f, g)
      modifies this
      ensures old(cells) <= cells && (ok <==> end == Value.Nil)
      ensures ok ==>
                && Within(r, out, |old(cells)|, |cells|, cells)
                && multiset(out) == multiset(vs) && Ordered(f, g, out)
      decreases |vs|
    {
      hide Asymmetric, Transitive, Less, Side, Ordered, Within, Ending;
      var n, v := Count(l, vs, end);
      if v != Value.Nil {
        return l, false, [];
      }
      if n == 0 {
        NoneOrdered(f, g, |cells|, cells);
        return Value.Nil, true, [];
      }
      var j :| 0 <= j < n;
      var mark := Pick(l, j, vs, end);
      ghost var base := |cells|;
      var less, notless, ls, ns := Partition(l, j, mark, f, g, vs);
      assert |multiset(vs)| == |ls| + |ns| + 1;
      ghost var c1 := cells;
      WithinEnds(less, ls, base, |cells|, cells);
      WithinEnds(notless, ns, base, |cells|, cells);
      var a, ok1, xs := Qsort(less, f, g, ls, Value.Nil);
      ghost var c2 := cells;
      EndingStays(notless, ns, Value.Nil, c1, c2);
      var b, ok2, ys := Qsort(notless, f, g, ns, Value.Nil);
      WithinStays(a, xs, |c1|, |c2|, |c1|, |c2|, c2, cells);
      r := Assemble(a, mark, b, xs, ys, |c1|, |c2|);
      WithinStays(r, xs + ([mark] + ys), |c1|, |cells|, base, |cells|, cells, cells);
      out := xs + ([mark] + ys);
      ok := true;
      SameElements(f, g, ls, xs, mark, true);
      SameElements(f, g, ns, ys, mark, false);
      JoinOrdered(f, g, xs, mark, ys);
    }
  }

  lemma NoneOrdered(f: Comparison, g: Data.Option<Value -> Value>, base: nat, cells: Cells)
    ensures Ordered(f, g, []) && Within(Value.Nil, [], base, base, cells)
  {
  }

  /** Where the partition loop stands: both lists in new cells, each on its side. */
  ghost predicate Parted(f: Comparison, g: Data.Option<Value -> Value>, less: Value, ls: seq<Value>, notless: Value, ns: seq<Value>,
                         mark: Value, base: nat, cells: Cells)
  {
    && Within(less, ls, base, |cells|, cells) && Within(notless, ns, base, |cells|, cells)
    && Side(f, g, ls, mark, true) && Side(f, g, ns, mark, false)
  }

  /** The first `n` elements, all but the one at `j`, are on the two lists. */
  ghost predicate Taken(vs: seq<Value>, n: nat, j: nat, ls: seq<Value>, ns: seq<Value>)
    requires n <= |vs| && j < |vs|
  {
    multiset(ls) + multiset(ns) + (if n > j then multiset{vs[j]} else multiset{}) == multiset(vs[..n])
  }

  lemma TakenStep(vs: seq<Value>, n: nat, j: nat, ls: seq<Value>, ns: seq<Value>)
    requires n < |vs| && j < |vs| && Taken(vs, n, j, ls, ns)
    ensures j == n ==> Taken(vs, n + 1, j, ls, ns)
    ensures j != n ==> Taken(vs, n + 1, j, [vs[n]] + ls, ns) && Taken(vs, n + 1, j, ls, [vs[n]] + ns)
  {
    assert vs[..n + 1] == vs[..n] + [vs[n]];
  }

  lemma NothingParted(f: Comparison, g: Data.Option<Value -> Value>, mark: Value, base: nat, cells: Cells)
    ensures Parted(f, g, Value.Nil, [], Value.Nil, [], mark, base, cells)
  {
  }

  lemma PartLess(f: Comparison, g: Data.Option<Value -> Value>, less: Value, x: Value, ls: seq<Value>, notless: Value, ns: seq<Value>,
                 mark: Value, base: nat, a: Cells, b: Cells)
    requires |b| == |a| + 1 && a == b[..|a|] && less == Ref(|a|) && b[|a|].car == x && base <= |a|
    requires Parted(f, g, b[|a|].cdr, ls, notless, ns, mark, base, a) && Less(f, g, x, mark)
    ensures Parted(f, g, less, [x] + ls, notless, ns, mark, base, b)
  {
    hide Less;
    Pushed(less, x, ls, base, a, b);
    WithinStays(notless, ns, base, |a|, base, |b|, a, b);
  }

  lemma PartNotLess(f: Comparison, g: Data.Option<Value -> Value>, less: Value, ls: seq<Value>, notless: Value, x: Value, ns: seq<Value>,
                    mark: Value, base: nat, a: Cells, b: Cells)
    requires |b| == |a| + 1 && a == b[..|a|] && notless == Ref(|a|) && b[|a|].car == x && base <= |a|
    requires Parted(f, g, less, ls, b[|a|].cdr, ns, mark, base, a) && !Less(f, g, x, mark)
    ensures Parted(f, g, less, ls, notless, [x] + ns, mark, base, b)
  {
    hide Less;
    Pushed(notless, x, ns, base, a, b);
    WithinStays(less, ls, base, |a|, base, |b|, a, b);
  }

  lemma EndingStep(v: Value, rest: seq<Value>, end: Value, cells: Cells)
    requires Ending(v, rest, end, cells) && v != end
    ensures rest != [] && v.Ref? && v.p < |cells| && cells[v.p].car == rest[0] && Ending(cells[v.p].cdr, rest[1..], end, cells)
  {
  }

  lemma EndingDone(rest: seq<Value>, cells: Cells)
    requires Ending(Value.Nil, rest, Value.Nil, cells)
    ensures rest == []
  {
  }

  lemma Pushed(l: Value, x: Value, vs: seq<Value>, lo: nat, a: Cells, b: Cells)
    requires l == Ref(|a|) && |b| == |a| + 1 && a == b[..|a|] && b[|a|].car == x && lo <= |a|
    requires Within(b[|a|].cdr, vs, lo, |a|, a)
    ensures Within(l, [x] + vs, lo, |b|, b)
  {
    WithinStays(b[|a|].cdr, vs, lo, |a|, lo, |b|, a, b);
    assert ([x] + vs)[1..] == vs;
  }

  /** `v` is the last cell of the list. */
  predicate IsLast(l: Value, vs: seq<Value>, lo: nat, hi: nat, v: Value, cells: Cells)
    requires vs != [] && Within(l, vs, lo, hi, cells)
    decreases |vs|
  {
    if |vs| == 1 then v == l else IsLast(cells[l.p].cdr, vs[1..], lo, hi, v, cells)
  }

  lemma {:induction false} LastBounds(l: Value, vs: seq<Value>, lo: nat, hi: nat, v: Value, cells: Cells)
    requires vs != [] && Within(l, vs, lo, hi, cells) && IsLast(l, vs, lo, hi, v, cells)
    ensures v.Ref? && lo <= v.p < hi && v.p < |cells| && cells[v.p].cdr == Value.Nil
    decreases |vs|
  {
    if |vs| > 1 {
      LastBounds(cells[l.p].cdr, vs[1..], lo, hi, v, cells);
    } else {
      assert vs[1..] == [];
    }
  }

  /** Hanging a second list, further up in memory, on the last cell of a first one. */
  lemma {:induction false} Hang(l: Value, vs: seq<Value>, lo: nat, hi: nat, v: Value, b: Value, ws: seq<Value>, cells: Cells)
    requires vs != [] && Within(l, vs, lo, hi, cells) && IsLast(l, vs, lo, hi, v, cells)
    requires Within(b, ws, hi, |cells|, cells) && lo <= hi <= |cells|
    ensures v.Ref? && v.p < |cells|
    ensures Within(l, vs + ws, lo, |cells|, cells[v.p := Pair(cells[v.p].car, b)])
    decreases |vs|
  {
    LastBounds(l, vs, lo, hi, v, cells);
    var more := cells[v.p := Pair(cells[v.p].car, b)];
    assert (vs + ws)[1..] == vs[1..] + ws;
    if |vs| == 1 {
      WithinStays(b, ws, hi, |cells|, lo, |cells|, cells, more);
      assert vs[1..] + ws == ws;
    } else {
      Hang(cells[l.p].cdr, vs[1..], lo, hi, v, b, ws, cells);
    }
  }
}
