/** Whole runs of a program on storage that is collected by copying. */
module CopyRuns {
  import opened Cells
  import opened GraphPreserved
  import opened Programs
  import opened Registers
  import opened StopAndCopy

  ghost function Now(h: CopyHeap): (s: Snapshot)
    reads h, h.mem, h.globals
    ensures s.mem == h.mem[..] && s.blocks == h.blocks && s.globals == h.globals[..] && s.regs == h.regs
    ensures s.cells == Interval(h.heapOrg, h.heap)
  {
    Snapshot(h.mem[..], h.blocks, h.globals[..], h.regs, Interval(h.heapOrg, h.heap))
  }

  /** The graph is the same, and so is every variable that is not protected. */
  ghost predicate Moves(s: Snapshot, t: Snapshot) {
    && SameGraph(s.mem, s.blocks, Roots(s.globals, s.regs), t.mem, t.blocks, Roots(t.globals, t.regs))
    && t.regs == s.regs && |t.globals| == |s.globals|
    && forall a :: 0 <= a < |s.globals| && a !in Locations(s.regs) ==> t.globals[a] == s.globals[a]
  }

  /** Protecting C variables starts them off with NIL, and each is protected once. */
  predicate Protectable(s: Snapshot, location: nat, n: nat) {
    location + n <= |s.globals| && AllNil(s.globals, location, n) && Apart(Locations(s.regs), location, n)
  }

  predicate Apart(l: seq<nat>, location: nat, n: nat) {
    forall a :: location <= a < location + n ==> a !in l
  }

  /** Half of the memory, but for NIL, is in use. */
  predicate Full(s: Snapshot) {
    1 + 2 * |s.cells| == |s.mem|
  }

  /** A new cell has been made and stored.  Nothing happens when the storage is full or an
      operand is not a location, or not of the right kind; and that is the only reason. */
  ghost predicate Allocates(op: Op, s: Snapshot, t: Snapshot)
    requires op.Make? || op.MakeArray?
  {
    var roots := Roots(s.globals, s.regs);
    if !Operands(op, s) || Full(s) then t == s
    else LiveKept(s, t, roots) && exists z :: Makes(op, s, t, roots, s.cells, z)
  }

  /** What a step does.  A collection leaves the blocks of what the registers lead to and
      frees all others. */
  ghost predicate Effect(op: Op, s: Snapshot, t: Snapshot) {
    match op
    case Make(_, _, _, _, _, _) => Allocates(op, s, t)
    case MakeArray(_, _, _, _) => Allocates(op, s, t)
    case Protect(location, n) => t == if Protectable(s, location, n) then s.(regs := [Register(location, n)] + s.regs) else s
    case Collect => Moves(s, t) && exists S :: Frees(s, t, Roots(s.globals, s.regs), S)
    case _ => Updates(op, s, t)
  }

  /** What the registers lead to are cells in use, with their blocks. */
  lemma LiveInSpace(m: seq<Cell>, b: Blocks, roots: seq<int>, lo: nat, hi: nat, x: int)
    requires SpaceOk(m, b, lo, hi) && RootsIn(roots, lo, hi) && Reachable(m, b, roots, x)
    ensures lo <= x < hi && (OwnsBlock(m[x]) ==> m[x].w1 in b)
  {
    var S := Interval(lo, hi);
    OwnersIn(m, b, S);
    forall y | y in S
      ensures 0 < y < |m| && ChildrenIn(m[y], b, S)
    {
      assert CellOk(m[y], b, S);
    }
    hide CellsOk;
    var k, path :| 0 <= k < |roots| && Walk(m, b, roots[k], path) == x;
    WalkStaysIn(m, b, S, roots[k], path);
  }

  /** Adding a cell and a block leaves what there is. */
  lemma GrowthKeepsLive(s: Snapshot, t: Snapshot, lo: nat, z: nat)
    requires SpaceOk(s.mem, s.blocks, lo, z) && RootsIn(Roots(s.globals, s.regs), lo, z) && |t.mem| == |s.mem|
    requires forall x :: lo <= x < z ==> t.mem[x] == s.mem[x]
    requires forall id :: id in s.blocks ==> id in t.blocks && t.blocks[id] == s.blocks[id]
    ensures LiveKept(s, t, Roots(s.globals, s.regs))
    ensures !Reachable(s.mem, s.blocks, Roots(s.globals, s.regs), z)
  {
    var roots := Roots(s.globals, s.regs);
    hide Reachable, CellsOk, RootsIn, Roots;
    forall x | Reachable(s.mem, s.blocks, roots, x)
      ensures x != z && CellKept(s.mem, s.blocks, t.mem, t.blocks, x)
    {
      LiveInSpace(s.mem, s.blocks, roots, lo, z, x);
    }
  }

  lemma EffectOfMaking(op: Op, s: Snapshot, t: Snapshot, z: int)
    requires (op.Make? || op.MakeArray?) && Operands(op, s) && !Full(s) && LiveKept(s, t, Roots(s.globals, s.regs))
    requires Makes(op, s, t, Roots(s.globals, s.regs), s.cells, z)
    ensures Effect(op, s, t)
  {
    hide LiveKept, Makes, Operands, Full;
  }

  lemma EffectOfFailing(op: Op, s: Snapshot)
    requires (op.Make? || op.MakeArray?) && (!Operands(op, s) || Full(s))
    ensures Effect(op, s, s)
  {
    hide Operands, Full;
  }

  lemma EffectOfUpdate(op: Op, s: Snapshot, t: Snapshot)
    requires (op.SetCons? || op.SetValue? || op.SetElement? || op.Copy?) && Updates(op, s, t)
    ensures Effect(op, s, t)
  {
    hide Updates;
  }

  /** The pointer in the i-th protected location. */
  method Fetch(h: CopyHeap, i: nat) returns (x: nat)
    requires h.Valid() && i < |Locations(h.regs)|
    ensures x == At(Now(h), i) && (x == 0 || h.heapOrg <= x < h.heap)
    ensures x < h.mem.Length && 0 < h.heapOrg <= h.heap <= h.mem.Length
  {
    var a := Locations(h.regs)[i];
    assert Roots(h.globals[..], h.regs)[i] == h.globals[a];
    x := h.globals[a];
  }

  /** Store a pointer in the i-th protected location. */
  method Store(h: CopyHeap, i: nat, x: nat)
    requires h.Valid() && i < |Locations(h.regs)| && (x == 0 || h.heapOrg <= x < h.heap)
    modifies h.globals
    ensures h.Valid() && Locations(h.regs)[i] < h.globals.Length
    ensures h.globals[..] == old(h.globals[..])[Locations(h.regs)[i] := x]
  {
    h.SetGlobal(Locations(h.regs)[i], x);
  }

  lemma ValidSpace(h: CopyHeap)
    requires h.Valid()
    ensures SpaceOk(h.mem[..], h.blocks, h.heapOrg, h.heap) && RootsIn(Roots(h.globals[..], h.regs), h.heapOrg, h.heap)
    ensures 0 < h.heapOrg <= h.heap <= h.heapEnd <= h.mem.Length
    ensures Full(Now(h)) <==> h.heap == h.heapEnd
  {
    hide SpaceOk, RootsIn, Distinct, InRange;
  }

  /** What there is once a new cell has been filled in is stored. */
  lemma OneMore(lo: nat, z: nat)
    requires lo <= z
    ensures Interval(lo, z + 1) == Interval(lo, z) + {z as int} && z as int !in Interval(lo, z)
  {
  }

  method DoMake(h: CopyHeap, a: nat, kind: Kind, w0: int, w1: int, b: nat, c: nat)
    requires h.Valid()
    modifies h, h.mem, h.globals
    ensures h.Valid() && Effect(Make(a, kind, w0, w1, b, c), old(Now(h)), Now(h))
  {
    hide *;
    ghost var s := Now(h);
    var op := Make(a, kind, w0, w1, b, c);
    var z := 0;
    ValidSpace(h);
    OperandsOfMake(op, s);
    if a < |Locations(h.regs)| && b < |Locations(h.regs)| && c < |Locations(h.regs)| && Plain(kind) {
      var x := Fetch(h, b);
      var y := Fetch(h, c);
      z := h.NewFilled(kind, w0, w1, x, y);
      if z != 0 {
        MadeIs(h.mem[z], op, s, x, y);
      }
    }
    if z == 0 {
      EffectOfFailing(op, s);
    } else {
      ghost var t := Now(h);
      ValidSpace(h);
      GrowthKeepsLive(s, t, h.heapOrg, z);
      OneMore(h.heapOrg, z);
      Store(h, a, z);
      LiveIs(s, t, Now(h), Roots(s.globals, s.regs));
      MakeIs(op, s, Now(h), Roots(s.globals, s.regs), s.cells, z);
      EffectOfMaking(op, s, Now(h), z);
    }
  }

  method DoMakeArray(h: CopyHeap, a: nat, kind: Kind, size: nat, id: int)
    requires h.Valid()
    modifies h, h.mem, h.globals
    ensures h.Valid() && Effect(MakeArray(a, kind, size, id), old(Now(h)), Now(h))
  {
    hide *;
    ghost var s := Now(h);
    var op := MakeArray(a, kind, size, id);
    var z := 0;
    ValidSpace(h);
    OperandsOfArray(op, s);
    if a < |Locations(h.regs)| && id !in h.blocks && kind in {String, DoubleArray, LongArray, LispArray, ByteArray} {
      z := h.ArCons(kind, size, id);
    }
    if z == 0 {
      EffectOfFailing(op, s);
    } else {
      ghost var t := Now(h);
      ValidSpace(h);
      GrowthKeepsLive(s, t, h.heapOrg, z);
      OneMore(h.heapOrg, z);
      Store(h, a, z);
      LiveIs(s, t, Now(h), Roots(s.globals, s.regs));
      ArrayIs(op, s, Now(h), Roots(s.globals, s.regs), s.cells, z);
      EffectOfMaking(op, s, Now(h), z);
    }
  }

  /** Change a cell that is there. */
  method DoSet(h: CopyHeap, op: Op)
    requires h.Valid() && (op.SetCons? || op.SetValue? || op.SetElement?)
    modifies h, h.mem, h.globals
    ensures h.Valid() && Effect(op, old(Now(h)), Now(h))
  {
    hide *;
    ghost var s := Now(h);
    var n := |Locations(h.regs)|;
    var x := 0;
    if op.a < n {
      x := Fetch(h, op.a);
    } else {
      NowhereIs(s, op.a);
    }
    match op {
      case SetCons(a, b, c) =>
        if x != 0 && b < n && c < n && h.mem[x].kind == Cons {
          var car := Fetch(h, b);
          var cdr := Fetch(h, c);
          h.SetPair(x, car, cdr);
        }
        SetConsIs(a, b, c, s, Now(h), x);
      case SetValue(a, b) =>
        if x != 0 && b < n && h.mem[x].kind == Symbol {
          var v := Fetch(h, b);
          h.SetValueCell(x, v);
        }
        SetValueIs(a, b, s, Now(h), x);
      case SetElement(a, j, b) =>
        if x != 0 && b < n && h.mem[x].kind == LispArray && j < h.mem[x].w0 {
          var v := Fetch(h, b);
          h.SetElement(x, j, v);
        }
        SetElementIs(a, j, b, s, Now(h), x);
    }
    EffectOfUpdate(op, s, Now(h));
  }

  /** A collection, seen from the program: it keeps its graph, in what every access path
      leads to and in which paths lead to the same object; it leaves as many cells in use as
      the registers lead to, with just their blocks, and frees every other block. */
  method DoCollect(h: CopyHeap)
    requires h.Valid()
    modifies h, h.mem, h.globals
    ensures h.Valid() && Effect(Collect, old(Now(h)), Now(h))
  {
    hide *;
    ghost var s := Now(h);
    h.GcStopAndCopy();
    GraphIsSame(h.gc, h.mem[..], h.blocks, Roots(h.globals[..], h.regs));
    AllReached(s, h.gc, h.mem[..], h.blocks, Roots(h.globals[..], h.regs));
    FreesIs(s, Now(h), Roots(s.globals, s.regs), h.gc.fwd.Keys);
    CollectIs(s, Now(h), h.gc.fwd.Keys);
  }

  lemma AllReached(s: Snapshot, c: Copying, m: seq<Cell>, b: Blocks, roots: seq<int>)
    requires GraphCopied(c, m, b, roots) && c.m0 == s.mem && c.b0 == s.blocks && c.roots == Roots(s.globals, s.regs)
    ensures Reached(s.mem, s.blocks, Roots(s.globals, s.regs), c.fwd.Keys)
  {
    hide Reachable, CellCopied, Roots;
  }

  lemma FreesIs(s: Snapshot, t: Snapshot, roots: seq<int>, S: set<int>)
    requires Reached(s.mem, s.blocks, roots, S) && |t.cells| == |S| && t.blocks.Keys == OwnedBlocks(s.mem, S)
    ensures Frees(s, t, roots, S)
  {
    hide Reached, OwnedBlocks;
  }

  lemma CollectIs(s: Snapshot, t: Snapshot, S: set<int>)
    requires SameGraph(s.mem, s.blocks, Roots(s.globals, s.regs), t.mem, t.blocks, Roots(t.globals, t.regs))
    requires t.regs == s.regs && |t.globals| == |s.globals|
    requires forall a :: 0 <= a < |s.globals| && a !in Locations(s.regs) ==> t.globals[a] == s.globals[a]
    requires Frees(s, t, Roots(s.globals, s.regs), S)
    ensures Effect(Collect, s, t)
  {
    hide SameGraph, Frees;
  }

  lemma OneMoreNil(g: seq<int>, l: seq<nat>, location: nat, n: nat)
    requires location + n < |g|
    ensures AllNil(g, location, n + 1) && Apart(l, location, n + 1) <==>
            AllNil(g, location, n) && Apart(l, location, n) && g[location + n] == 0 && location + n !in l
  {
    if AllNil(g, location, n + 1) && Apart(l, location, n + 1) {
      assert AllNil(g, location, n) && Apart(l, location, n);
    }
  }

  lemma NilAt(g: seq<int>, l: seq<nat>, location: nat, n: nat)
    requires location + n <= |g| && AllNil(g, location, n) && Apart(l, location, n)
    ensures forall a :: location <= a < location + n ==> a !in l && g[a] == 0
  {
  }

  lemma ProtectIs(location: nat, n: nat, s: Snapshot, t: Snapshot, ok: bool)
    requires ok <==> location + n <= |s.globals| && AllNil(s.globals, location, n) && Apart(Locations(s.regs), location, n)
    requires t == if ok then s.(regs := [Register(location, n)] + s.regs) else s
    ensures Effect(Protect(location, n), s, t)
  {
    hide AllNil, Apart;
  }

  /** Is none of these variables protected yet, and is each NIL? */
  method ProtectableHere(h: CopyHeap, location: nat, n: nat) returns (ok: bool)
    requires location + n <= h.globals.Length
    ensures ok <==> AllNil(h.globals[..], location, n) && Apart(Locations(h.regs), location, n)
  {
    ok := true;
    for k := 0 to n
      invariant ok <==> AllNil(h.globals[..], location, k) && Apart(Locations(h.regs), location, k)
    {
      OneMoreNil(h.globals[..], Locations(h.regs), location, k);
      ok := ok && h.globals[location + k] == 0 && location + k !in Locations(h.regs);
    }
  }

  method DoProtect(h: CopyHeap, location: nat, n: nat)
    requires h.Valid()
    modifies h, h.mem, h.globals
    ensures h.Valid() && Effect(Protect(location, n), old(Now(h)), Now(h))
  {
    hide *;
    ghost var s := Now(h);
    var ok := false;
    if location + n <= h.globals.Length {
      ok := ProtectableHere(h, location, n);
      if ok {
        NilAt(h.globals[..], Locations(h.regs), location, n);
        h.GcProtectN(location, n);
      }
    }
    ProtectIs(location, n, s, Now(h), ok);
  }

  /** One step of a program. */
  method Step(h: CopyHeap, op: Op)
    requires h.Valid()
    modifies h, h.mem, h.globals
    ensures h.Valid() && Effect(op, old(Now(h)), Now(h))
  {
    hide *;
    ghost var s := Now(h);
    match op
    case Make(a, kind, w0, w1, b, c) => DoMake(h, a, kind, w0, w1, b, c);
    case MakeArray(a, kind, size, id) => DoMakeArray(h, a, kind, size, id);
    case SetCons(_, _, _) => DoSet(h, op);
    case SetValue(_, _) => DoSet(h, op);
    case SetElement(_, _, _) => DoSet(h, op);
    case Copy(a, b) =>
      if a < |Locations(h.regs)| && b < |Locations(h.regs)| {
        var x := Fetch(h, b);
        Store(h, a, x);
      }
      CopyIs(a, b, s, Now(h));
      EffectOfUpdate(op, s, Now(h));
    case Protect(location, n) => DoProtect(h, location, n);
    case Collect => DoCollect(h);
  }

  /** Over any run the space in use stays in order, every block has its one owner among the
      cells in use at every step, and each step does what it should: a collection leaves the
      same graph and the blocks in it, and an allocation fails only for want of room. */
  method Run(h: CopyHeap, ops: seq<Op>) returns (ghost log: seq<Snapshot>)
    requires h.Valid()
    modifies h, h.mem, h.globals
    ensures h.Valid()
    ensures |log| == |ops| + 1 && log[0] == old(Now(h)) && log[|ops|] == Now(h)
    ensures forall i :: 0 <= i < |ops| ==> Effect(ops[i], log[i], log[i + 1])
    ensures forall i :: 0 <= i <= |ops| ==> Owned(log[i])
  {
    hide *;
    log := [Now(h)];
    BlocksOwned(h);
    for i := 0 to |ops|
      invariant h.Valid() && |log| == i + 1 && log[0] == old(Now(h)) && log[i] == Now(h)
      invariant forall j :: 0 <= j < i ==> Effect(ops[j], log[j], log[j + 1])
      invariant forall j :: 0 <= j <= i ==> Owned(log[j])
    {
      ghost var before := log;
      Step(h, ops[i]);
      log := log + [Now(h)];
      BlocksOwned(h);
      forall j | 0 <= j < i + 1
        ensures Effect(ops[j], log[j], log[j + 1])
      {
        if j < i {
          assert log[j] == before[j] && log[j + 1] == before[j + 1];
        }
      }
    }
  }

  lemma BlocksOwned(h: CopyHeap)
    requires h.Valid()
    ensures Owned(Now(h))
  {
    hide Distinct, InRange, RootsIn, EachOk, OwnersApart, OwnedBlocks;
  }
}
