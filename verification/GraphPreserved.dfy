/** What a stop-and-copy collection means to a program: following pointers from the
    registers gives the same answers after the collection as before it. */
module GraphPreserved {
  import opened Cells
  import opened StopAndCopy

  lemma {:induction false} WalkCopied(c: Copying, m: seq<Cell>, b: Blocks, roots: seq<int>, x: int, path: seq<nat>)
    requires GraphCopied(c, m, b, roots) && 0 !in c.fwd
    requires x == 0 || x in c.fwd
    ensures var y := Walk(c.m0, c.b0, x, path); (y == 0 || y in c.fwd) && Walk(m, b, Move(c.fwd, x), path) == Move(c.fwd, y)
    decreases |path|
  {
    hide Reachable;
    if path != [] && x != 0 {
      assert CellCopied(c, m, b, x);
      ChildrenCopied(c, m, b, x);
      if path[0] < |Children(c.m0[x], c.b0)| {
        WalkCopied(c, m, b, roots, Children(c.m0[x], c.b0)[path[0]], path[1..]);
      }
    }
  }

  lemma ForwardingIsInjective(c: Copying, x: int, y: int)
    requires Tracks(c) && 0 < c.ns && (x == 0 || x in c.fwd) && (y == 0 || y in c.fwd) && 0 !in c.fwd
    ensures Move(c.fwd, x) == Move(c.fwd, y) <==> x == y
  {
    hide Reachable;
    if x in c.fwd && y in c.fwd && c.fwd[x] == c.fwd[y] {
      assert c.order[c.fwd[x] - c.ns] == x && c.order[c.fwd[y] - c.ns] == y;
    }
  }

  /** Two access paths lead to the same object after a collection iff they did before:
      sharing and cycles are kept, and nothing is shared that was not. */
  lemma SharingPreserved(c: Copying, m: seq<Cell>, b: Blocks, roots: seq<int>,
                         j: nat, p: seq<nat>, k: nat, q: seq<nat>)
    requires GraphCopied(c, m, b, roots) && Tracks(c) && 0 < c.lo && 0 < c.ns
    requires j < |roots| && k < |roots|
    ensures Walk(m, b, roots[j], p) == Walk(m, b, roots[k], q) <==>
            Walk(c.m0, c.b0, c.roots[j], p) == Walk(c.m0, c.b0, c.roots[k], q)
  {
    RootCopied(c, m, b, roots, j);
    RootCopied(c, m, b, roots, k);
    WalkCopied(c, m, b, roots, c.roots[j], p);
    WalkCopied(c, m, b, roots, c.roots[k], q);
    ForwardingIsInjective(c, Walk(c.m0, c.b0, c.roots[j], p), Walk(c.m0, c.b0, c.roots[k], q));
  }

  lemma RootCopied(c: Copying, m: seq<Cell>, b: Blocks, roots: seq<int>, k: nat)
    requires GraphCopied(c, m, b, roots) && Tracks(c) && 0 < c.lo && k < |roots|
    ensures (c.roots[k] == 0 || c.roots[k] in c.fwd) && roots[k] == Move(c.fwd, c.roots[k]) && 0 !in c.fwd
  {
    ZeroNotCopied(c);
    if c.roots[k] != 0 {
      ReachableRoot(c.m0, c.b0, c.roots, k);
    }
  }

  /** The words of a cell that are not pointers, and its raw data. */
  ghost predicate SameAtom(c0: Cell, b0: Blocks, c1: Cell, b1: Blocks) {
    && c1.kind == c0.kind
    && (c0.kind !in {Cons, Closure, Symbol} ==> c1.w0 == c0.w0 && c1.w1 == c0.w1)
    && (c0.kind == Symbol ==> c1.w0 == c0.w0)
    && |Children(c1, b1)| == |Children(c0, b0)|
    && (OwnsBlock(c0) && c0.kind != LispArray ==> c0.w1 in b0 && c0.w1 in b1 && b1[c0.w1] == b0[c0.w1])
  }

  /** The object at the end of an access path has the same kind and the same atomic
      contents after a collection, and is NIL exactly if it was. */
  lemma ContentsPreserved(c: Copying, m: seq<Cell>, b: Blocks, roots: seq<int>, k: nat, p: seq<nat>)
    requires GraphCopied(c, m, b, roots) && Tracks(c) && 0 < c.lo && 0 < c.ns && k < |roots|
    ensures var x, y := Walk(c.m0, c.b0, c.roots[k], p), Walk(m, b, roots[k], p);
            && (x == 0 <==> y == 0)
            && (x != 0 ==> 0 < x < |c.m0| && 0 < y < |m| && SameAtom(c.m0[x], c.b0, m[y], b))
  {
    hide Reachable;
    RootCopied(c, m, b, roots, k);
    WalkCopied(c, m, b, roots, c.roots[k], p);
    var x := Walk(c.m0, c.b0, c.roots[k], p);
    if x != 0 {
      assert CellCopied(c, m, b, x);
      ChildrenCopied(c, m, b, x);
    }
  }

  /** Whatever access paths a program follows from its registers, it cannot tell the memory
      `m`, `b` with roots `r` from `m0`, `b0` with roots `r0`, but by addresses. */
  ghost predicate SameGraph(m0: seq<Cell>, b0: Blocks, r0: seq<int>, m: seq<Cell>, b: Blocks, r: seq<int>) {
    && |r| == |r0|
    && (forall j, p, k, q :: 0 <= j < |r0| && 0 <= k < |r0| ==>
          (Walk(m, b, r[j], p) == Walk(m, b, r[k], q) <==> Walk(m0, b0, r0[j], p) == Walk(m0, b0, r0[k], q)))
    && (forall k, p :: 0 <= k < |r0| ==> SameObject(m0, b0, Walk(m0, b0, r0[k], p), m, b, Walk(m, b, r[k], p)))
  }

  ghost predicate SameObject(m0: seq<Cell>, b0: Blocks, x: int, m: seq<Cell>, b: Blocks, y: int) {
    && (x == 0 <==> y == 0)
    && (x != 0 ==> 0 < x < |m0| && 0 < y < |m| && SameAtom(m0[x], b0, m[y], b))
  }

  /** A collection leaves the same graph. */
  lemma GraphIsSame(c: Copying, m: seq<Cell>, b: Blocks, roots: seq<int>)
    requires GraphCopied(c, m, b, roots) && Tracks(c) && Start(c)
    ensures SameGraph(c.m0, c.b0, c.roots, m, b, roots)
  {
    StartBounds(c);
    CopiedRoots(c, m, b, roots);
    hide *;
    forall j, p: seq<nat>, k, q: seq<nat> | 0 <= j < |roots| && 0 <= k < |roots|
      ensures Walk(m, b, roots[j], p) == Walk(m, b, roots[k], q) <==> Walk(c.m0, c.b0, c.roots[j], p) == Walk(c.m0, c.b0, c.roots[k], q)
    {
      SharingPreserved(c, m, b, roots, j, p, k, q);
    }
    forall k, p: seq<nat> | 0 <= k < |roots|
      ensures SameObject(c.m0, c.b0, Walk(c.m0, c.b0, c.roots[k], p), m, b, Walk(m, b, roots[k], p))
    {
      ContentsPreserved(c, m, b, roots, k, p);
      SameObjectIs(c.m0, c.b0, Walk(c.m0, c.b0, c.roots[k], p), m, b, Walk(m, b, roots[k], p));
    }
    SameGraphIs(c.m0, c.b0, c.roots, m, b, roots);
  }

  lemma SameObjectIs(m0: seq<Cell>, b0: Blocks, x: int, m: seq<Cell>, b: Blocks, y: int)
    requires (x == 0 <==> y == 0) && (x != 0 ==> 0 < x < |m0| && 0 < y < |m| && SameAtom(m0[x], b0, m[y], b))
    ensures SameObject(m0, b0, x, m, b, y)
  {
  }

  lemma SameGraphIs(m0: seq<Cell>, b0: Blocks, r0: seq<int>, m: seq<Cell>, b: Blocks, r: seq<int>)
    requires |r| == |r0|
    requires forall j, p, k, q :: 0 <= j < |r0| && 0 <= k < |r0| ==>
               (Walk(m, b, r[j], p) == Walk(m, b, r[k], q) <==> Walk(m0, b0, r0[j], p) == Walk(m0, b0, r0[k], q))
    requires forall k, p :: 0 <= k < |r0| ==> SameObject(m0, b0, Walk(m0, b0, r0[k], p), m, b, Walk(m, b, r[k], p))
    ensures SameGraph(m0, b0, r0, m, b, r)
  {
    hide Walk, SameObject;
  }

  lemma StartBounds(c: Copying)
    requires Start(c)
    ensures 0 < c.lo && 0 < c.ns
  {
  }

  lemma CopiedRoots(c: Copying, m: seq<Cell>, b: Blocks, roots: seq<int>)
    requires GraphCopied(c, m, b, roots)
    ensures |roots| == |c.roots|
  {
  }
}
