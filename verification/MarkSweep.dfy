/** The mark-and-sweep collector and its allocator (src/slib.c:694-706, 1268-1471;
    array hooks src/sliba.c:70-99).

    Heap k occupies the heapSize cells from 1 + k * heapSize on.  Heaps are allocated
    in order, so the cells of active heaps are those below `top`. */
module MarkSweep {
  import opened Cells
  import opened Programs
  import opened Registers

  const CELL_BYTES := 24   // sizeof(struct obj)

  // ----- marking -----

  /** During marking memory differs from `m0` only in marks, and only inside R. */
  ghost predicate Marking(m: seq<Cell>, m0: seq<Cell>, R: set<int>) {
    && |m| == |m0|
    && (forall x :: 0 < x < |m| ==> !m0[x].mark && m[x] == m0[x].(mark := m[x].mark))
    && (forall x :: 0 < x < |m| && m[x].mark ==> x in R)
  }

  function Marked(m: seq<Cell>, R: set<int>): set<int> {
    set x | x in R && 0 < x < |m| && m[x].mark
  }

  ghost predicate ArrayOk(c: Cell, b: Blocks) {
    c.kind == LispArray ==> c.w1 in b && c.w0 == |b[c.w1]|
  }

  /** R is closed under following pointers. */
  ghost predicate Sealed(m0: seq<Cell>, b: Blocks, R: set<int>) {
    forall x :: x in R ==> 0 < x < |m0| && ChildrenIn(m0[x], b, R) && ArrayOk(m0[x], b)
  }

  /** Every cell of `now` that is not in `before` has its children in `now`, or in `tail`. */
  ghost predicate Traced(m0: seq<Cell>, b: Blocks, before: set<int>, now: set<int>, tail: set<int>) {
    forall x :: x in now && x !in before ==> 0 < x < |m0| && ChildrenIn(m0[x], b, now + tail)
  }

  lemma TracedMore(m0: seq<Cell>, b: Blocks, M: set<int>, M1: set<int>, M2: set<int>, p: int, tail: set<int>)
    requires M <= M1 && M1 <= M2 && p in M1
    requires Traced(m0, b, M, M1 - {p}, {p})
    requires Traced(m0, b, M1, M2, {})
    requires p !in M ==> 0 < p < |m0| && ChildrenIn(m0[p], b, M2 + tail)
    ensures Traced(m0, b, M, M2, tail)
  {
    forall x | x in M2 && x !in M
      ensures 0 < x < |m0| && ChildrenIn(m0[x], b, M2 + tail)
    {
      if x in M1 && x != p {
        ChildrenInMore(m0[x], b, M1 - {p} + {p}, M2 + tail);
      } else if x !in M1 {
        ChildrenInMore(m0[x], b, M2 + {}, M2 + tail);
      }
    }
  }

  lemma ChildrenInMore(c: Cell, b: Blocks, S: set<int>, T: set<int>)
    requires ChildrenIn(c, b, S) && S <= T
    ensures ChildrenIn(c, b, T)
  {
  }

  lemma TracedNone(m0: seq<Cell>, b: Blocks, M: set<int>, tail: set<int>)
    ensures Traced(m0, b, M, M, tail)
  {
  }

  lemma TracedTrans(m0: seq<Cell>, b: Blocks, M: set<int>, M1: set<int>, M2: set<int>)
    requires M <= M1 <= M2 && Traced(m0, b, M, M1, {}) && Traced(m0, b, M1, M2, {})
    ensures Traced(m0, b, M, M2, {})
  {
    forall x | x in M2 && x !in M
      ensures 0 < x < |m0| && ChildrenIn(m0[x], b, M2 + {})
    {
      if x in M1 {
        ChildrenInMore(m0[x], b, M1 + {}, M2 + {});
      }
    }
  }

  lemma TracedEnd(m0: seq<Cell>, b: Blocks, M: set<int>, now: set<int>, p: int)
    requires Traced(m0, b, M, now, {p}) && (p == 0 || p in now)
    ensures Traced(m0, b, M, now, {})
  {
    forall x | x in now && x !in M
      ensures 0 < x < |m0| && ChildrenIn(m0[x], b, now + {})
    {
      assert ChildrenIn(m0[x], b, now + {p});
    }
  }

  /** Marking one cell, and what is known of it. */
  lemma MarkOne(m: seq<Cell>, m0: seq<Cell>, b: Blocks, R: set<int>, p: int)
    requires Marking(m, m0, R) && Sealed(m0, b, R) && (p == 0 || p in R)
    ensures p != 0 ==> 0 < p < |m| == |m0| && ChildrenIn(m0[p], b, R)
    ensures p != 0 ==> ArrayOk(m0[p], b) && WordsIn(m0[p], R)
    ensures p != 0 ==> (m[p].mark <==> p in Marked(m, R)) && m[p] == m0[p].(mark := m[p].mark)
    ensures p != 0 ==> var m' := m[p := m[p].(mark := true)];
                       Marking(m', m0, R) && Marked(m', R) == Marked(m, R) + {p}
  {
    if p != 0 {
      WordsSealed(m0[p], b, R);
    }
    hide ChildrenIn, WordsIn, ArrayOk;
  }

  ghost predicate WordsIn(c: Cell, R: set<int>) {
    && (c.kind in {Cons, Closure} ==> c.w0 == 0 || c.w0 in R)
    && (c.kind in {Cons, Closure, Symbol} ==> c.w1 == 0 || c.w1 in R)
  }

  lemma WordsSealed(c: Cell, b: Blocks, R: set<int>)
    requires ChildrenIn(c, b, R)
    ensures WordsIn(c, R)
  {
    if c.kind in {Cons, Closure} {
      assert Children(c, b)[0] == c.w0 && Children(c, b)[1] == c.w1;
    } else if c.kind == Symbol {
      assert Children(c, b)[0] == c.w1;
    }
  }

  lemma PairTraced(m0: seq<Cell>, b: Blocks, p: int, now: set<int>, done: int, next: int)
    requires 0 < p < |m0| && (done == 0 || done in now)
    requires m0[p].kind == Cons ==> m0[p].w0 == done && m0[p].w1 == next
    requires m0[p].kind == Closure ==> m0[p].w1 == done && m0[p].w0 == next
    requires m0[p].kind == Symbol ==> m0[p].w1 == next
    requires m0[p].kind in {Cons, Closure, Symbol}
    ensures ChildrenIn(m0[p], b, now + {next})
  {
  }

  lemma AtomTraced(m0: seq<Cell>, b: Blocks, p: int, now: set<int>)
    requires 0 < p < |m0| && m0[p].kind !in {Cons, Closure, Symbol, LispArray}
    ensures ChildrenIn(m0[p], b, now + {})
  {
  }

  lemma ElementsSealed(m: seq<Cell>, m0: seq<Cell>, b: Blocks, R: set<int>, p: int)
    requires Marking(m, m0, R) && Sealed(m0, b, R) && p in R && 0 < p < |m|
    requires m[p].kind == LispArray && m[p].w1 in b
    ensures p < |m0| && m0[p].kind == LispArray && m0[p].w1 == m[p].w1
    ensures forall i :: 0 <= i < |b[m[p].w1]| ==> b[m[p].w1][i] == 0 || b[m[p].w1][i] in R
  {
    assert ChildrenIn(m0[p], b, R) && Children(m0[p], b) == b[m[p].w1];
  }

  lemma ElementsTraced(m0: seq<Cell>, b: Blocks, p: int, now: set<int>)
    requires 0 < p < |m0| && m0[p].kind == LispArray && m0[p].w1 in b
    requires forall i :: 0 <= i < |b[m0[p].w1]| ==> b[m0[p].w1][i] == 0 || b[m0[p].w1][i] in now
    ensures ChildrenIn(m0[p], b, now)
  {
  }

  // ----- roots -----

  /** The cell a word found on the C stack is taken to point to, if any. */
  function StackRoot(w: int, cells: set<int>): (r: int)
    ensures r == 0 || r in cells
  {
    if w % CELL_BYTES == 0 && w / CELL_BYTES in cells then w / CELL_BYTES else 0
  }

  function StackRoots(words: seq<int>, cells: set<int>): (r: seq<int>)
    ensures |r| == |words| && forall i :: 0 <= i < |r| ==> r[i] == StackRoot(words[i], cells)
  {
    seq(|words|, i requires 0 <= i < |words| => StackRoot(words[i], cells))
  }

  function AllRoots(saved: seq<int>, globals: seq<int>, regs: seq<Register>, stack: seq<int>, cells: set<int>): seq<int> {
    StackRoots(saved, cells) + Roots(globals, regs) + StackRoots(stack, cells)
  }

  ghost predicate RootsMarked(roots: seq<int>, marked: set<int>) {
    forall i :: 0 <= i < |roots| ==> roots[i] == 0 || roots[i] in marked
  }

  // ----- the free list -----

  /** The cells s, in this order and without repetition, are linked through CDR from
      `head`, and they are free. */
  ghost predicate FreeList(m: seq<Cell>, head: int, s: seq<nat>)
    decreases |s|
  {
    if s == [] then head == 0
    else
      && head == s[0] && 0 < head < |m|
      && m[head].kind == FreeCell && !m[head].mark
      && head !in Elements(s[1..])
      && FreeList(m, m[head].w1, s[1..])
  }

  ghost function Elements(s: seq<nat>): set<int> {
    if s == [] then {} else {s[0] as int} + Elements(s[1..])
  }

  lemma {:induction false} FreeListFrame(m: seq<Cell>, m': seq<Cell>, head: int, s: seq<nat>)
    requires FreeList(m, head, s) && |m| == |m'|
    requires forall x :: x in Elements(s) && 0 < x < |m| ==> m'[x] == m[x]
    ensures FreeList(m', head, s)
    decreases |s|
  {
    if s != [] {
      assert s[0] as int in Elements(s);
      FreeListFrame(m, m', m[head].w1, s[1..]);
    }
  }

  lemma FreeListCons(m: seq<Cell>, p: nat, s: seq<nat>)
    requires 0 < p < |m| && FreeList(m, m[p].w1, s) && p as int !in Elements(s)
    requires m[p].kind == FreeCell && !m[p].mark
    ensures FreeList(m, p, [p] + s) && Elements([p] + s) == Elements(s) + {p as int}
  {
    assert ([p] + s)[1..] == s;
  }

  lemma FreeListPush(m: seq<Cell>, head: int, s: seq<nat>, p: nat, c: Cell)
    requires FreeList(m, head, s) && 0 < p < |m| && p as int !in Elements(s)
    requires c.w1 == head && c.kind == FreeCell && !c.mark
    ensures FreeList(m[p := c], p, [p] + s) && Elements([p] + s) == Elements(s) + {p as int}
  {
    assert ([p] + s)[1..] == s;
    FreeListFrame(m, m[p := c], head, s);
  }

  lemma {:induction false} FreeListSize(m: seq<Cell>, head: int, s: seq<nat>)
    requires FreeList(m, head, s)
    ensures |Elements(s)| == |s|
    decreases |s|
  {
    if s != [] {
      FreeListSize(m, m[head].w1, s[1..]);
    }
  }

  lemma {:induction false} FreeListFacts(m: seq<Cell>, head: int, s: seq<nat>)
    requires FreeList(m, head, s)
    ensures forall x :: x in Elements(s) ==> 0 < x < |m| && m[x].kind == FreeCell && !m[x].mark
    decreases |s|
  {
    if s != [] {
      FreeListFacts(m, m[head].w1, s[1..]);
    }
  }

  // ----- sweeping -----

  /** The sweep has dealt with the cells below `pos`: survivors R are unmarked, the
      others are on the new free list and their blocks are freed. */
  ghost predicate Swept(m: seq<Cell>, m0: seq<Cell>, b: Blocks, b0: Blocks, cells: set<int>, R: set<int>,
                        pos: int, head: int, s: seq<nat>)
  {
    && SweptCells(m, m0, R, pos)
    && FreeList(m, head, s) && Elements(s) == Interval(1, pos) - R
    && b == b0 - DeadBelow(m0, cells, R, pos)
  }

  ghost predicate SweptCells(m: seq<Cell>, m0: seq<Cell>, R: set<int>, pos: int) {
    && 1 <= pos <= |m| == |m0|
    && (forall x :: 0 < x < pos && x in R ==> m[x] == m0[x])
    && (forall x :: pos <= x < |m| ==> m[x] == m0[x].(mark := x in R))
  }

  /** The facts about memory at the start of a sweep that the sweep relies on: the
      cells below `top` that are not allocated are free cells. */
  ghost predicate Sweepable(m0: seq<Cell>, b0: Blocks, cells: set<int>, R: set<int>, top: int) {
    && R <= cells && CellsOk(m0, b0, cells)
    && top <= |m0| && (forall x :: x in cells ==> x < top)
    && (forall x :: 0 < x < top && x !in cells ==> m0[x].kind == FreeCell && !m0[x].mark)
  }

  function DeadBelow(m0: seq<Cell>, cells: set<int>, R: set<int>, pos: int): set<int> {
    OwnedBlocks(m0, Interval(1, pos) * cells - R)
  }

  lemma DeadBelowMore(m0: seq<Cell>, cells: set<int>, R: set<int>, pos: nat)
    requires 0 < pos < |m0|
    ensures DeadBelow(m0, cells, R, pos + 1) ==
            DeadBelow(m0, cells, R, pos) + if pos in cells && pos !in R && OwnsBlock(m0[pos]) then {m0[pos].w1} else {}
  {
    hide OwnedBlocks, OwnsBlock;
    assert Interval(1, pos + 1) == Interval(1, pos) + {pos};
    var S, T := Interval(1, pos) * cells - R, Interval(1, pos + 1) * cells - R;
    if pos in cells && pos !in R {
      assert T == S + {pos};
      OwnedOneMore(m0, S, pos);
    } else {
      assert T == S;
    }
  }

  /** A block that is about to be freed is still allocated. */
  lemma StillAllocated(m0: seq<Cell>, b0: Blocks, cells: set<int>, R: set<int>, pos: nat)
    requires CellsOk(m0, b0, cells) && pos in cells && 0 < pos < |m0| && OwnsBlock(m0[pos])
    ensures m0[pos].w1 in b0 && m0[pos].w1 !in DeadBelow(m0, cells, R, pos)
  {
    hide EachOk, OwnersApart;
    assert m0[pos].w1 in OwnedBlocks(m0, cells);
    NotDeadBelow(m0, cells, R, pos);
  }

  lemma NotDeadBelow(m0: seq<Cell>, cells: set<int>, R: set<int>, pos: nat)
    requires OwnersApart(m0, cells) && pos in cells && 0 < pos < |m0| && OwnsBlock(m0[pos])
    ensures m0[pos].w1 !in DeadBelow(m0, cells, R, pos)
  {
    hide OwnersApart;
    var id := m0[pos].w1;
    if id in DeadBelow(m0, cells, R, pos) {
      var y :| y in Interval(1, pos) * cells - R && 0 < y < |m0| && OwnsBlock(m0[y]) && m0[y].w1 == id;
      ApartAt(m0, cells, y, pos);
    }
  }

  lemma SweepFacts(m: seq<Cell>, m0: seq<Cell>, b: Blocks, b0: Blocks, cells: set<int>, R: set<int>,
                   pos: nat, head: int, s: seq<nat>, top: int)
    requires Swept(m, m0, b, b0, cells, R, pos, head, s) && Sweepable(m0, b0, cells, R, top) && pos < top
    ensures 0 < pos < |m| == |m0| && m[pos] == m0[pos].(mark := pos in R)
    ensures pos !in cells ==> m0[pos].kind == FreeCell
    ensures OwnsBlock(m0[pos]) ==> pos in cells
    ensures !m0[pos].mark
  {
    hide CellOk, OwnersApart, OwnedBlocks, FreeList;
    if pos in cells {
      assert CellOk(m0[pos], b0, cells);
      CellUnmarked(m0[pos], b0, cells);
    }
  }

  lemma CellUnmarked(c: Cell, b: Blocks, S: set<int>)
    requires CellOk(c, b, S)
    ensures !c.mark
  {
  }

  lemma SweepLive(m: seq<Cell>, m0: seq<Cell>, b: Blocks, b0: Blocks, cells: set<int>, R: set<int>,
                  pos: nat, head: int, s: seq<nat>, top: int)
    requires Swept(m, m0, b, b0, cells, R, pos, head, s) && Sweepable(m0, b0, cells, R, top) && pos < top && pos in R
    ensures pos < |m| && Swept(m[pos := m[pos].(mark := false)], m0, b, b0, cells, R, pos + 1, head, s)
  {
    hide *;
    SweepFacts(m, m0, b, b0, cells, R, pos, head, s, top);
    DeadBelowMore(m0, cells, R, pos);
    SweptParts(m, m0, b, b0, cells, R, pos, head, s);
    assert Interval(1, pos + 1) - R == Interval(1, pos) - R;
    FreeListFrame(m, m[pos := m[pos].(mark := false)], head, s);
    SweptCellsStep(m, m0, R, pos, m[pos].(mark := false));
    SweptIs(m[pos := m[pos].(mark := false)], m0, b, b0, cells, R, pos + 1, head, s);
  }

  lemma SweptParts(m: seq<Cell>, m0: seq<Cell>, b: Blocks, b0: Blocks, cells: set<int>, R: set<int>,
                   pos: int, head: int, s: seq<nat>)
    requires Swept(m, m0, b, b0, cells, R, pos, head, s)
    ensures SweptCells(m, m0, R, pos) && 1 <= pos <= |m|
    ensures FreeList(m, head, s) && Elements(s) == Interval(1, pos) - R && b == b0 - DeadBelow(m0, cells, R, pos)
  {
    hide FreeList, DeadBelow;
  }

  lemma SweptIs(m: seq<Cell>, m0: seq<Cell>, b: Blocks, b0: Blocks, cells: set<int>, R: set<int>,
                pos: int, head: int, s: seq<nat>)
    requires SweptCells(m, m0, R, pos)
    requires FreeList(m, head, s) && Elements(s) == Interval(1, pos) - R && b == b0 - DeadBelow(m0, cells, R, pos)
    ensures Swept(m, m0, b, b0, cells, R, pos, head, s)
  {
    hide SweptCells, FreeList, DeadBelow;
  }

  lemma SweptCellsStep(m: seq<Cell>, m0: seq<Cell>, R: set<int>, pos: nat, c: Cell)
    requires SweptCells(m, m0, R, pos) && pos < |m| && (pos in R ==> c == m0[pos])
    ensures SweptCells(m[pos := c], m0, R, pos + 1)
  {
  }

  lemma SweepDead(m: seq<Cell>, m0: seq<Cell>, b: Blocks, b0: Blocks, cells: set<int>, R: set<int>,
                  pos: nat, head: int, s: seq<nat>, top: int)
    requires Swept(m, m0, b, b0, cells, R, pos, head, s) && Sweepable(m0, b0, cells, R, top) && pos < top && pos !in R
    ensures pos < |m| && OwnsBlock(m[pos]) ==> m[pos].w1 in b
    ensures pos < |m|
    ensures var b' := if OwnsBlock(m[pos]) then b - {m[pos].w1} else b;
            Swept(m[pos := m[pos].(kind := FreeCell, w1 := head)], m0, b', b0, cells, R, pos + 1, pos, [pos] + s)
  {
    hide *;
    SweepFacts(m, m0, b, b0, cells, R, pos, head, s, top);
    DeadBelowMore(m0, cells, R, pos);
    SweptParts(m, m0, b, b0, cells, R, pos, head, s);
    SweepBlock(m0, b, b0, cells, R, pos, top);
    assert Interval(1, pos + 1) - R == Interval(1, pos) - R + {pos};
    var c := m[pos].(kind := FreeCell, w1 := head);
    FreeListPush(m, head, s, pos, c);
    SweptCellsStep(m, m0, R, pos, c);
    SweptIs(m[pos := c], m0, if OwnsBlock(m[pos]) then b - {m[pos].w1} else b, b0, cells, R, pos + 1, pos, [pos] + s);
  }

  lemma SweepBlock(m0: seq<Cell>, b: Blocks, b0: Blocks, cells: set<int>, R: set<int>, pos: nat, top: int)
    requires Sweepable(m0, b0, cells, R, top) && 0 < pos < top && b == b0 - DeadBelow(m0, cells, R, pos) && pos !in R
    ensures pos < |m0|
    ensures OwnsBlock(m0[pos]) ==>
              m0[pos].w1 in b && pos in cells &&
              b - {m0[pos].w1} == b0 - (DeadBelow(m0, cells, R, pos) + {m0[pos].w1})
  {
    hide CellsOk, DeadBelow;
    if OwnsBlock(m0[pos]) {
      StillAllocated(m0, b0, cells, R, pos);
    }
  }

  // ----- marking from the roots -----

  /** Everything marked so far has all its children marked. */
  ghost predicate MarkedSoFar(m: seq<Cell>, m0: seq<Cell>, b: Blocks, R: set<int>) {
    Marking(m, m0, R) && Sealed(m0, b, R) && Traced(m0, b, {}, Marked(m, R), {})
  }

  /** Memory ready to be marked: marks are clear, and the cells below `top` that are not
      allocated are free cells. */
  ghost predicate Prepared(m0: seq<Cell>, b: Blocks, cells: set<int>, top: int) {
    && CellsOk(m0, b, cells) && 0 < top <= |m0|
    && (forall x :: x in cells ==> 0 < x < top && x < |m0| && m0[x].kind != FreeCell)
    && (forall x :: 0 < x < top && x !in cells ==> m0[x].kind == FreeCell && !m0[x].mark)
    && (forall x :: top <= x < |m0| ==> !m0[x].mark)
  }

  ghost function ReachableCells(m0: seq<Cell>, b: Blocks, roots: seq<int>, cells: set<int>): set<int> {
    set x | x in cells && Reachable(m0, b, roots, x)
  }

  lemma BeginMark(m0: seq<Cell>, b: Blocks, roots: seq<int>, cells: set<int>, top: int)
    requires Prepared(m0, b, cells, top) && RootsMarked(roots, cells)
    ensures var R := ReachableCells(m0, b, roots, cells);
            MarkedSoFar(m0, m0, b, R) && Marked(m0, R) == {} && RootsMarked(roots, R) && R <= cells
  {
    hide Reachable, CellsOk;
    var R := ReachableCells(m0, b, roots, cells);
    forall x | 0 < x < |m0|
      ensures !m0[x].mark
    {
      if x in cells {
        CellIn(m0, b, cells, x);
      }
    }
    forall x | x in R
      ensures 0 < x < |m0| && ChildrenIn(m0[x], b, R) && ArrayOk(m0[x], b)
    {
      CellIn(m0, b, cells, x);
      ReachableChildren(m0, b, roots, cells, x);
    }
    forall i | 0 <= i < |roots| && roots[i] != 0
      ensures roots[i] in R
    {
      ReachableRoot(m0, b, roots, i);
    }
  }

  lemma CellIn(m: seq<Cell>, b: Blocks, S: set<int>, x: int)
    requires CellsOk(m, b, S) && x in S
    ensures 0 < x < |m| && !m[x].mark && ChildrenIn(m[x], b, S) && ArrayOk(m[x], b)
  {
    hide OwnersApart, OwnedBlocks, ChildrenIn;
    assert CellOk(m[x], b, S);
  }

  lemma ReachableChildren(m0: seq<Cell>, b: Blocks, roots: seq<int>, cells: set<int>, x: int)
    requires 0 < x < |m0| && ChildrenIn(m0[x], b, cells) && Reachable(m0, b, roots, x)
    ensures ChildrenIn(m0[x], b, ReachableCells(m0, b, roots, cells))
  {
    hide Reachable;
    forall i | 0 <= i < |Children(m0[x], b)| && Children(m0[x], b)[i] != 0
      ensures Children(m0[x], b)[i] in ReachableCells(m0, b, roots, cells)
    {
      ReachableChild(m0, b, roots, x, i);
    }
  }

  lemma MarkMore(m1: seq<Cell>, m2: seq<Cell>, m0: seq<Cell>, b: Blocks, R: set<int>)
    requires MarkedSoFar(m1, m0, b, R) && Marking(m2, m0, R) && Marked(m1, R) <= Marked(m2, R)
    requires Traced(m0, b, Marked(m1, R), Marked(m2, R), {})
    ensures MarkedSoFar(m2, m0, b, R)
  {
    hide Traced, Marking, Sealed, Marked;
    TracedTrans(m0, b, {}, Marked(m1, R), Marked(m2, R));
  }

  /** When every root is marked, exactly the reachable cells are. */
  lemma EndMark(m: seq<Cell>, m0: seq<Cell>, b: Blocks, roots: seq<int>, cells: set<int>)
    requires var R := ReachableCells(m0, b, roots, cells); MarkedSoFar(m, m0, b, R) && RootsMarked(roots, Marked(m, R))
    ensures var R := ReachableCells(m0, b, roots, cells);
            Marked(m, R) == R && (forall x :: x in R <==> Reachable(m0, b, roots, x))
  {
    hide Reachable, ChildrenIn;
    var R := ReachableCells(m0, b, roots, cells);
    var M := Marked(m, R);
    forall x | x in M
      ensures 0 < x < |m0| && ChildrenIn(m0[x], b, M)
    {
      assert M + {} == M;
      assert ChildrenIn(m0[x], b, M + {});
    }
    ClosedIsReachable(m0, b, roots, M);
  }

  lemma SameKinds(m: seq<Cell>, m0: seq<Cell>, b: Blocks, R: set<int>)
    requires MarkedSoFar(m, m0, b, R)
    ensures |m| == |m0| && forall x :: 0 < x < |m| ==> m[x].kind == m0[x].kind
  {
    hide Sealed, Traced;
  }

  lemma RootsIn(saved: seq<int>, g: seq<int>, regs: seq<Register>, stack: seq<int>, cells: set<int>)
    requires RootsMarked(Roots(g, regs), cells)
    ensures RootsMarked(AllRoots(saved, g, regs, stack, cells), cells)
  {
  }

  lemma RootsSplit(saved: seq<int>, g: seq<int>, regs: seq<Register>, stack: seq<int>, cells: set<int>, R: set<int>)
    requires RootsMarked(AllRoots(saved, g, regs, stack, cells), R)
    ensures RootsMarked(StackRoots(saved, cells), R) && RootsMarked(Roots(g, regs), R) && RootsMarked(StackRoots(stack, cells), R)
  {
    var all, n, k := AllRoots(saved, g, regs, stack, cells), |saved|, |Roots(g, regs)|;
    assert all[..n] == StackRoots(saved, cells) && all[n..n + k] == Roots(g, regs) && all[n + k..] == StackRoots(stack, cells);
    hide AllRoots, StackRoots, Roots;
    assert forall i :: 0 <= i < |all| ==> all[i] == 0 || all[i] in R;
  }

  lemma RootsJoin(saved: seq<int>, g: seq<int>, regs: seq<Register>, stack: seq<int>, cells: set<int>, M: set<int>)
    requires RootsMarked(StackRoots(saved, cells), M) && RootsMarked(Roots(g, regs), M) && RootsMarked(StackRoots(stack, cells), M)
    ensures RootsMarked(AllRoots(saved, g, regs, stack, cells), M)
  {
  }

  lemma NextRoot(g: seq<int>, regs: seq<Register>, reg: Register, done: nat, j: nat)
    requires var all := Locations(regs); done + reg.length <= |all| && all[done..done + reg.length] == Span(reg)
    requires InRange(regs, |g|) && j < reg.length
    ensures done + j < |Roots(g, regs)| && reg.location + j < |g| && Roots(g, regs)[done + j] == g[reg.location + j]
  {
    hide Locations;
    var all := Locations(regs);
    assert all[done + j] == all[done..done + reg.length][j] == reg.location + j;
  }

  lemma RootIn(roots: seq<int>, i: nat, R: set<int>)
    requires RootsMarked(roots, R) && i < |roots|
    ensures roots[i] == 0 || roots[i] in R
  {
  }

  lemma RootsOneMore(roots: seq<int>, i: nat, M: set<int>)
    requires i < |roots| && RootsMarked(roots[..i], M) && (roots[i] == 0 || roots[i] in M)
    ensures RootsMarked(roots[..i + 1], M)
  {
    assert roots[..i + 1] == roots[..i] + [roots[i]];
  }

  lemma RootsStillMarked(roots: seq<int>, M1: set<int>, M2: set<int>)
    requires RootsMarked(roots, M1) && M1 <= M2
    ensures RootsMarked(roots, M2)
  {
  }

  // ----- a whole collection -----

  /** The cells S and their blocks are the same before and after. */
  ghost predicate Kept(m: seq<Cell>, b: Blocks, m': seq<Cell>, b': Blocks, S: set<int>) {
    |m'| == |m| && forall x :: x in S ==> CellKept(m, b, m', b', x)
  }

  lemma BeginSweep(m: seq<Cell>, m0: seq<Cell>, b: Blocks, cells: set<int>, R: set<int>, top: int)
    requires MarkedSoFar(m, m0, b, R) && Marked(m, R) == R && Prepared(m0, b, cells, top) && R <= cells
    ensures Swept(m, m0, b, b, cells, R, 1, 0, []) && Sweepable(m0, b, cells, R, top)
  {
    hide Sealed, Traced, CellsOk;
    assert SweptCells(m, m0, R, 1) by {
      forall x | 1 <= x < |m|
        ensures m[x] == m0[x].(mark := x in R)
      {
        assert m[x].mark <==> x in Marked(m, R);
      }
    }
    assert Interval(1, 1) - R == {} && Interval(1, 1) * cells - R == {};
    assert b - {} == b;
  }

  lemma MarkedIsSealed(m: seq<Cell>, m0: seq<Cell>, b: Blocks, R: set<int>)
    requires MarkedSoFar(m, m0, b, R)
    ensures Sealed(m0, b, R) && |m| == |m0|
  {
    hide Sealed, Traced;
  }

  lemma EndSweep(m: seq<Cell>, m0: seq<Cell>, b: Blocks, b0: Blocks, cells: set<int>, R: set<int>,
                 top: int, head: int, s: seq<nat>)
    requires Swept(m, m0, b, b0, cells, R, top, head, s) && Prepared(m0, b0, cells, top)
    requires Sealed(m0, b0, R) && R <= cells
    ensures CellsOk(m, b, R) && InUse(m, R) && Clear(m, top) && Kept(m0, b0, m, b, R)
    ensures FreeList(m, head, s) && Elements(s) == Interval(1, top) - R && R <= Interval(1, top)
    ensures b.Keys <= b0.Keys
  {
    hide FreeList, DeadBelow, ChildrenIn, CellsOk, CellOk;
    forall x | x in R
      ensures m[x] == m0[x]
    {
    }
    LiveBlocks(m0, b0, cells, R, top);
    SurvivorsOk(m, m0, b, b0, cells, R);
  }

  /** Freeing the dead blocks leaves exactly the survivors' blocks. */
  lemma LiveBlocks(m0: seq<Cell>, b0: Blocks, cells: set<int>, R: set<int>, top: int)
    requires CellsOk(m0, b0, cells) && R <= cells <= Interval(1, top) && top <= |m0|
    ensures (b0 - DeadBelow(m0, cells, R, top)).Keys == OwnedBlocks(m0, R)
  {
    hide EachOk, OwnersApart;
    assert Interval(1, top) * cells - R == cells - R;
    forall id | id in OwnedBlocks(m0, R)
      ensures id in b0 && id !in DeadBelow(m0, cells, R, top)
    {
      var x :| x in R && 0 < x < |m0| && OwnsBlock(m0[x]) && m0[x].w1 == id;
      assert x in cells;
      NotDeadAt(m0, cells, R, top, x);
    }
  }

  lemma NotDeadAt(m0: seq<Cell>, cells: set<int>, R: set<int>, top: int, x: int)
    requires OwnersApart(m0, cells) && x in R && R <= cells && 0 < x < |m0| && OwnsBlock(m0[x])
    ensures m0[x].w1 !in DeadBelow(m0, cells, R, top)
  {
    hide OwnersApart;
    var id := m0[x].w1;
    if id in DeadBelow(m0, cells, R, top) {
      var y :| y in Interval(1, top) * cells - R && 0 < y < |m0| && OwnsBlock(m0[y]) && m0[y].w1 == id;
      ApartAt(m0, cells, y, x);
    }
  }

  lemma SurvivorsOk(m: seq<Cell>, m0: seq<Cell>, b: Blocks, b0: Blocks, cells: set<int>, R: set<int>)
    requires CellsOk(m0, b0, cells) && Sealed(m0, b0, R) && R <= cells && |m| == |m0|
    requires forall x :: x in R && 0 < x < |m| ==> m[x] == m0[x]
    requires b.Keys == OwnedBlocks(m0, R) && (forall id :: id in b ==> id in b0 && b[id] == b0[id])
    ensures CellsOk(m, b, R) && Kept(m0, b0, m, b, R)
  {
    assert OwnersApart(m, R) by {
      hide OwnedBlocks, EachOk;
    }
    assert OwnedBlocks(m, R) == OwnedBlocks(m0, R) by {
      hide OwnersApart, EachOk;
    }
    hide OwnersApart, OwnedBlocks, CellOk, ChildrenIn, ArrayOk;
    forall x | x in R
      ensures 0 < x < |m| && CellOk(m[x], b, R) && CellKept(m0, b0, m, b, x)
    {
      SurvivorOk(m, m0, b, b0, cells, R, x);
    }
  }

  lemma SurvivorOk(m: seq<Cell>, m0: seq<Cell>, b: Blocks, b0: Blocks, cells: set<int>, R: set<int>, x: int)
    requires CellsOk(m0, b0, cells) && Sealed(m0, b0, R) && R <= cells && |m| == |m0| && x in R
    requires 0 < x < |m| ==> m[x] == m0[x]
    requires b.Keys == OwnedBlocks(m0, R) && (forall id :: id in b ==> id in b0 && b[id] == b0[id])
    ensures 0 < x < |m| && CellOk(m[x], b, R) && CellKept(m0, b0, m, b, x)
  {
    hide OwnersApart, ChildrenIn;
    CellIn(m0, b0, cells, x);
    assert OwnsBlock(m0[x]) ==> m0[x].w1 in OwnedBlocks(m0, R);
    assert Children(m[x], b) == Children(m0[x], b0);
    SameChildrenIn(m0[x], b0, b, R);
  }

  lemma SameChildrenIn(c: Cell, b0: Blocks, b: Blocks, R: set<int>)
    requires ChildrenIn(c, b0, R) && Children(c, b) == Children(c, b0)
    ensures ChildrenIn(c, b, R)
  {
  }

  lemma KeptAlso(m: seq<Cell>, m0: seq<Cell>, b: Blocks, m': seq<Cell>, b': Blocks, cells: set<int>, R: set<int>)
    requires Kept(m0, b, m', b', R) && R <= cells && |m| == |m0|
    requires forall x :: x in cells && 0 < x < |m| ==> m0[x] == m[x]
    ensures Kept(m, b, m', b', R)
  {
    forall x | x in R
      ensures CellKept(m, b, m', b', x)
    {
      assert CellKept(m0, b, m', b', x);
    }
  }

  /** Reachability from allocated cells depends only on the allocated cells. */
  lemma SameReachable(m: seq<Cell>, m0: seq<Cell>, b: Blocks, cells: set<int>, roots: seq<int>)
    requires CellsOk(m0, b, cells) && RootsMarked(roots, cells) && |m| == |m0|
    requires forall x :: x in cells && 0 < x < |m| ==> m0[x] == m[x]
    ensures forall x :: Reachable(m, b, roots, x) <==> Reachable(m0, b, roots, x)
    ensures forall x :: Reachable(m0, b, roots, x) ==> x in cells
  {
    hide CellsOk;
    forall x | x in cells
      ensures 0 < x < |m0| && ChildrenIn(m0[x], b, cells)
    {
      CellIn(m0, b, cells, x);
    }
    forall k, path | 0 <= k < |roots|
      ensures Walk(m, b, roots[k], path) == Walk(m0, b, roots[k], path)
      ensures Walk(m0, b, roots[k], path) == 0 || Walk(m0, b, roots[k], path) in cells
    {
      SameWalk(m, m0, b, cells, roots[k], path);
    }
  }

  lemma PreparedOk(m0: seq<Cell>, b: Blocks, cells: set<int>, top: int)
    requires Prepared(m0, b, cells, top)
    ensures CellsOk(m0, b, cells)
  {
    hide CellsOk;
  }

  lemma {:induction false} SameWalk(m: seq<Cell>, m0: seq<Cell>, b: Blocks, cells: set<int>, x: int, path: seq<nat>)
    requires |m| == |m0| && (x == 0 || x in cells)
    requires forall x :: x in cells ==> 0 < x < |m0| && ChildrenIn(m0[x], b, cells) && m0[x] == m[x]
    ensures Walk(m, b, x, path) == Walk(m0, b, x, path)
    ensures Walk(m0, b, x, path) == 0 || Walk(m0, b, x, path) in cells
    decreases |path|
  {
    if path != [] && 0 < x < |m| && path[0] < |Children(m0[x], b)| {
      SameWalk(m, m0, b, cells, Children(m0[x], b)[path[0]], path[1..]);
    }
  }

  // ----- the allocator -----

  /** Every cell below `top` is in exactly one of the four sets, and no other is. */
  ghost predicate Parts(cells: set<int>, T: set<int>, F: set<int>, U: set<int>, top: int) {
    && (forall x :: x in cells ==> 0 < x < top && x !in T && x !in F && x !in U)
    && (forall x :: x in T ==> 0 < x < top && x !in F && x !in U)
    && (forall x :: x in F ==> 0 < x < top && x !in U)
    && (forall x :: x in U ==> 0 < x < top)
    && (forall x :: 0 < x < top ==> x in cells || x in T || x in F || x in U)
  }

  ghost predicate InUse(m: seq<Cell>, cells: set<int>) {
    forall x :: x in cells && 0 < x < |m| ==> m[x].kind != FreeCell
  }

  ghost predicate Clear(m: seq<Cell>, top: int) {
    forall x :: top <= x < |m| && 0 < x ==> !m[x].mark
  }

  /** `m0` is `m` with the cells from lo up to hi turned into free cells. */
  ghost predicate Cleared(m: seq<Cell>, m0: seq<Cell>, lo: nat, hi: nat) {
    && |m0| == |m|
    && (forall x :: 0 < x < |m| && !(lo <= x < hi) ==> m0[x] == m[x])
    && (forall x :: 0 < lo <= x < hi && x < |m| ==> m0[x].kind == FreeCell && !m0[x].mark)
  }

  lemma ClearedNone(m: seq<Cell>, lo: nat)
    ensures Cleared(m, m, lo, lo)
  {
  }

  lemma ClearedOne(m: seq<Cell>, m1: seq<Cell>, lo: nat, hi: nat)
    requires Cleared(m, m1, lo, hi) && 0 < lo <= hi < |m|
    ensures |m1| == |m| && Cleared(m, m1[hi := m1[hi].(kind := FreeCell, mark := false)], lo, hi + 1)
  {
  }

  lemma PartsCover(cells: set<int>, T: set<int>, F: set<int>, lo: nat, hi: nat, top: nat)
    requires Parts(cells, T, F, Interval(lo, hi), top)
    ensures forall x :: x in cells ==> 0 < x < top && !(lo <= x < hi) && x !in F
    ensures forall x :: 0 < x < top ==> x in cells || x in T || x in F || lo <= x < hi
  {
  }

  lemma PreparedIs(m: seq<Cell>, m0: seq<Cell>, b: Blocks, cells: set<int>, F: set<int>, lo: nat, hi: nat, top: nat)
    requires Parts(cells, {}, F, Interval(lo, hi), top) && CellsOk(m, b, cells) && InUse(m, cells) && Clear(m, top)
    requires Cleared(m, m0, lo, hi) && 0 < lo && hi <= top <= |m| && 0 < top
    requires forall x :: x in F ==> 0 < x < |m| && m[x].kind == FreeCell && !m[x].mark
    ensures Prepared(m0, b, cells, top)
    ensures forall x :: x in cells ==> 0 < x < |m| && m0[x] == m[x]
  {
    hide CellsOk, Parts;
    PartsCover(cells, {}, F, lo, hi, top);
    CellsOkFrame(m, m0, b, cells);
  }

  lemma KeepAll(m: seq<Cell>, b: Blocks, S: set<int>)
    requires CellsOk(m, b, S)
    ensures Kept(m, b, m, b, S)
  {
    hide OwnersApart, CellOk;
    forall x | x in S
      ensures CellKept(m, b, m, b, x)
    {
      assert 0 < x < |m|;
      assert OwnsBlock(m[x]) ==> m[x].w1 in OwnedBlocks(m, S);
    }
  }

  lemma KeptTrans(m: seq<Cell>, b: Blocks, m1: seq<Cell>, b1: Blocks, m2: seq<Cell>, b2: Blocks, S: set<int>, S2: set<int>)
    requires Kept(m, b, m1, b1, S) && Kept(m1, b1, m2, b2, S2) && S2 <= S
    ensures Kept(m, b, m2, b2, S2)
  {
    forall x | x in S2
      ensures CellKept(m, b, m2, b2, x)
    {
      assert CellKept(m, b, m1, b1, x) && CellKept(m1, b1, m2, b2, x);
    }
  }

  lemma NewCellsClear(m: seq<Cell>, cells: set<int>, F: set<int>, lo: nat, hi: nat, top: nat, end: nat)
    requires Parts(cells, {}, F, Interval(lo, hi), top) && Clear(m, top) && 0 < top && end <= |m|
    ensures forall x :: top <= x < end ==> !m[x].mark && x !in F
  {
  }

  /** Adding a heap of free cells leaves the allocated cells as they were. */
  lemma HeapAdded(m: seq<Cell>, m2: seq<Cell>, b: Blocks, cells: set<int>, F: set<int>, lo: nat, hi: nat, top: nat, end: nat)
    requires Parts(cells, {}, F, Interval(lo, hi), top) && CellsOk(m, b, cells) && InUse(m, cells) && Clear(m, top)
    requires 0 < lo <= hi <= top <= end <= |m| == |m2|
    requires forall x :: 0 < x < |m| && !(top <= x < end) ==> m2[x] == m[x]
    ensures Parts(cells, {}, Interval(top, end) + F, Interval(lo, hi), end)
    ensures CellsOk(m2, b, cells) && InUse(m2, cells) && Clear(m2, end) && Kept(m, b, m2, b, cells)
  {
    hide CellsOk, Kept;
    PartsCover(cells, {}, F, lo, hi, top);
    PartsGrow(cells, F, Interval(lo, hi), top, end);
    CellsOkFrame(m, m2, b, cells);
    KeepAll(m2, b, cells);
    KeptWas(m, m2, b, cells);
  }

  lemma KeptWas(m: seq<Cell>, m2: seq<Cell>, b: Blocks, cells: set<int>)
    requires Kept(m2, b, m2, b, cells) && |m| == |m2|
    requires forall x :: x in cells && 0 < x < |m| ==> m2[x] == m[x]
    ensures Kept(m, b, m2, b, cells)
  {
    forall x | x in cells
      ensures CellKept(m, b, m2, b, x)
    {
      assert CellKept(m2, b, m2, b, x);
    }
  }

  lemma PartsGrow(cells: set<int>, F: set<int>, U: set<int>, top: nat, end: nat)
    requires Parts(cells, {}, F, U, top) && 0 < top <= end
    ensures Parts(cells, {}, Interval(top, end) + F, U, end)
  {
  }

  lemma UnbornTaken(m: seq<Cell>, m2: seq<Cell>, b: Blocks, cells: set<int>, s: seq<nat>, h: nat, hi: nat, top: nat)
    requires FreeList(m, 0, s) && Parts(cells, {}, Elements(s), Interval(h, hi), top)
    requires CellsOk(m, b, cells) && InUse(m, cells) && Clear(m, top) && 0 < h < hi <= top <= |m|
    requires m2 == m[h := m[h].(w1 := 0)]
    ensures FreeList(m2, 0, s) && Parts(cells, {h as int}, Elements(s), Interval(h + 1, hi), top)
    ensures CellsOk(m2, b, cells) && InUse(m2, cells) && Clear(m2, top)
    ensures forall x :: x in cells && 0 < x < |m| ==> m2[x] == m[x]
  {
    hide CellsOk, Interval;
    assert s == [];
    PartsCover(cells, {}, {}, h, hi, top);
    CellsOkFrame(m, m2, b, cells);
  }

  lemma FirstTaken(m: seq<Cell>, cells: set<int>, head: int, s: seq<nat>, lo: nat, hi: nat, top: nat)
    requires FreeList(m, head, s) && s != [] && Parts(cells, {}, Elements(s), Interval(lo, hi), top)
    ensures 0 < head < |m| && FreeList(m, m[head].w1, s[1..])
    ensures Parts(cells, {head}, Elements(s[1..]), Interval(lo, hi), top)
  {
    hide Interval;
    assert Elements(s) == Elements(s[1..]) + {head};
  }

  lemma RangeNotEmpty(lo: nat, hi: nat)
    ensures lo < hi ==> Range(lo, hi) != []
  {
  }

  lemma NotEmpty(m: seq<Cell>, head: int, s: seq<nat>)
    requires FreeList(m, head, s)
    ensures (s == [] <==> head == 0) && 0 <= head
  {
  }

  /** Writing a cell that is neither allocated nor on the free list disturbs nothing. */
  lemma CellWritten(m: seq<Cell>, m2: seq<Cell>, b: Blocks, cells: set<int>, s: seq<nat>, head: int,
                    z: nat, lo: nat, hi: nat, top: nat)
    requires FreeList(m, head, s) && Parts(cells, {z as int}, Elements(s), Interval(lo, hi), top)
    requires CellsOk(m, b, cells) && InUse(m, cells) && Clear(m, top) && 0 < z < |m|
    requires |m2| == |m| && (forall x :: 0 < x < |m| && x != z ==> m2[x] == m[x])
    ensures FreeList(m2, head, s) && CellsOk(m2, b, cells) && InUse(m2, cells) && Clear(m2, top)
    ensures Kept(m, b, m2, b, cells)
  {
    hide CellsOk, Interval, Kept, FreeList;
    FreeListFrame(m, m2, head, s);
    CellsOkFrame(m, m2, b, cells);
    KeepAll(m2, b, cells);
    KeptWas(m, m2, b, cells);
  }

  lemma PartsHas(cells: set<int>, z: nat, F: set<int>, U: set<int>, top: int)
    requires Parts(cells, {z as int}, F, U, top)
    ensures 0 < z < top && z as int !in cells
    ensures Parts(cells + {z as int}, {}, F, U, top)
  {
    assert z as int in {z as int};
  }

  /** A new cell that owns no block joins the allocated cells. */
  lemma CellInstalled(m: seq<Cell>, m2: seq<Cell>, b: Blocks, cells: set<int>, s: seq<nat>, head: int,
                      z: nat, lo: nat, hi: nat, top: nat)
    requires FreeList(m, head, s) && Parts(cells, {z as int}, Elements(s), Interval(lo, hi), top)
    requires CellsOk(m, b, cells) && InUse(m, cells) && Clear(m, top) && 0 < z < |m| && z as int !in cells
    requires |m2| == |m| && (forall x :: 0 < x < |m| && x != z ==> m2[x] == m[x])
    requires m2[z].kind != FreeCell && !OwnsBlock(m2[z]) && CellOk(m2[z], b, cells + {z as int})
    ensures FreeList(m2, head, s) && CellsOk(m2, b, cells + {z as int}) && InUse(m2, cells + {z as int}) && Clear(m2, top)
  {
    CellWritten(m, m2, b, cells, s, head, z, lo, hi, top);
    hide FreeList, Parts, Interval, Kept;
    CellsOkMore(m2, b, b, cells, z);
  }

  lemma ArrayMade(m: seq<Cell>, m2: seq<Cell>, b: Blocks, b2: Blocks, cells: set<int>, s: seq<nat>, head: int,
                  z: nat, n: nat, top: nat)
    requires CellsOk(m, b, cells) && InUse(m, cells) && Clear(m, top) && z as int in cells && 0 < z < top <= |m|
    requires FreeList(m, head, s) && z as int !in Elements(s)
    requires |m2| == |m| && (forall x :: 0 < x < |m| && x != z ==> m2[x] == m[x])
    requires !OwnsBlock(m[z]) && OwnsBlock(m2[z]) && !m2[z].mark && m2[z].w0 == n && m2[z].w1 !in b
    requires b2 == b[m2[z].w1 := Initial(m2[z].kind, n)]
    ensures FreeList(m2, head, s) && CellsOk(m2, b2, cells) && InUse(m2, cells) && Clear(m2, top)
  {
    FreeListFrame(m, m2, head, s);
    hide FreeList, Elements, CellsOk;
    CellsOkArray(m, m2, b, b2, cells, z, n);
  }

  /** Turning a cell into an array leaves every other kept cell, and its block, alone. */
  lemma ArrayLeavesOthers(m0: seq<Cell>, b0: Blocks, m: seq<Cell>, b: Blocks, m2: seq<Cell>, z: nat, id: int, data: seq<int>,
                          roots: seq<int>, cells: set<int>)
    requires |m2| == |m| && (forall x :: 0 < x < |m| && x != z ==> m2[x] == m[x]) && id !in b
    requires forall w :: Reachable(m0, b0, roots, w) ==> w in cells && w != z && CellKept(m0, b0, m, b, w)
    ensures forall w :: Reachable(m0, b0, roots, w) ==> w in cells && w != z && CellKept(m0, b0, m2, b[id := data], w)
  {
    hide Reachable;
  }

  lemma AllocatedIs(cells: set<int>, F: set<int>, U: set<int>, top: int, z: nat)
    requires Parts(cells, {}, F, U, top) && z as int in cells
    ensures 0 < z < top && z as int !in F
  {
  }

  lemma PairSet(m: seq<Cell>, m2: seq<Cell>, b: Blocks, cells: set<int>, s: seq<nat>, head: int, x: nat, top: nat)
    requires CellsOk(m, b, cells) && InUse(m, cells) && Clear(m, top) && x as int in cells && 0 < x < top <= |m|
    requires FreeList(m, head, s) && x as int !in Elements(s)
    requires |m2| == |m| && (forall y :: 0 < y < |m| && y != x ==> m2[y] == m[y])
    requires !OwnsBlock(m[x]) && !OwnsBlock(m2[x]) && m2[x].kind != FreeCell && CellOk(m2[x], b, cells)
    ensures FreeList(m2, head, s) && CellsOk(m2, b, cells) && InUse(m2, cells) && Clear(m2, top)
  {
    FreeListFrame(m, m2, head, s);
    hide FreeList, Elements, CellsOk;
    CellsOkSet(m, m2, b, cells, x);
  }

  lemma GlobalSet(g: seq<int>, g2: seq<int>, regs: seq<Register>, a: nat, cells: set<int>)
    requires RootsMarked(Roots(g, regs), cells) && a < |g| && |g2| == |g| && (g2[a] == 0 || g2[a] in cells)
    requires forall i :: 0 <= i < |g| && i != a ==> g2[i] == g[i]
    ensures RootsMarked(Roots(g2, regs), cells)
  {
    forall i | 0 <= i < |Roots(g2, regs)|
      ensures Roots(g2, regs)[i] == 0 || Roots(g2, regs)[i] in cells
    {
      assert Roots(g, regs)[i] == 0 || Roots(g, regs)[i] in cells;
    }
  }

  lemma PartsSize(cells: set<int>, F: set<int>, lo: nat, hi: nat, top: nat)
    requires Parts(cells, {}, F, Interval(lo, hi), top) && 0 < top && lo <= hi
    ensures |cells| + |F| + (hi - lo) == top - 1
  {
    hide Interval;
    assert cells + F + Interval(lo, hi) == Interval(1, top);
    assert cells !! F && (cells + F) !! Interval(lo, hi);
  }

  /** A cell whose address is on the stack is reachable. */
  lemma PinnedReachable(m: seq<Cell>, b: Blocks, saved: seq<int>, g: seq<int>, regs: seq<Register>, stack: seq<int>,
                        cells: set<int>, x: nat)
    requires CELL_BYTES * x in stack && (x == 0 || x in cells)
    ensures x != 0 ==> Reachable(m, b, AllRoots(saved, g, regs, stack, cells), x)
  {
    var i :| 0 <= i < |stack| && stack[i] == CELL_BYTES * x;
    var roots := AllRoots(saved, g, regs, stack, cells);
    assert StackRoots(stack, cells)[i] == StackRoot(stack[i], cells);
    if x != 0 {
      var k := |saved| + |Roots(g, regs)| + i;
      assert roots[k] == x;
      ReachableRoot(m, b, roots, k);
    }
  }

  /** What was kept up to writing cell z is kept after it too. */
  lemma StillKept(m: seq<Cell>, b: Blocks, m1: seq<Cell>, m2: seq<Cell>, b2: Blocks, S: set<int>, z: nat, roots: seq<int>)
    requires Kept(m, b, m1, b2, S) && |m1| == |m2| && z as int !in S
    requires forall x :: 0 < x < |m1| && x != z ==> m2[x] == m1[x]
    requires forall x :: Reachable(m, b, roots, x) ==> x in S
    ensures forall x :: Reachable(m, b, roots, x) ==> x in S && CellKept(m, b, m2, b2, x)
  {
    hide Reachable;
    forall x | Reachable(m, b, roots, x)
      ensures x in S && CellKept(m, b, m2, b2, x)
    {
      assert CellKept(m, b, m1, b2, x);
    }
  }

  /** The addresses from lo up to but not including hi, in order. */
  ghost function Range(lo: nat, hi: nat): seq<nat>
    decreases hi - lo
  {
    if lo < hi then [lo] + Range(lo + 1, hi) else []
  }

  /** `m1` is `m` with the cells from lo up to hi free and each linked to the next. */
  ghost predicate Chained(m: seq<Cell>, m1: seq<Cell>, lo: nat, hi: nat) {
    && |m1| == |m|
    && (forall x :: 0 < x < |m| && !(lo <= x < hi) ==> m1[x] == m[x])
    && (forall x :: 0 < lo <= x < hi && x < |m| ==> m1[x] == m[x].(kind := FreeCell, w1 := x + 1))
  }

  lemma ChainedNone(m: seq<Cell>, lo: nat)
    ensures Chained(m, m, lo, lo)
  {
  }

  lemma ChainedOne(m: seq<Cell>, m1: seq<Cell>, lo: nat, p: nat)
    requires Chained(m, m1, lo, p) && 0 < lo <= p < |m|
    ensures |m1| == |m| && Chained(m, m1[p := m1[p].(kind := FreeCell, w1 := p + 1)], lo, p + 1)
  {
  }

  /** The cells from q up to p, then s, form a free list. */
  ghost predicate ChainFrom(m: seq<Cell>, q: nat, p: nat, s: seq<nat>) {
    FreeList(m, q, Range(q, p + 1) + s) && Elements(Range(q, p + 1) + s) == Interval(q, p + 1) + Elements(s)
  }

  lemma ChainFromIs(m: seq<Cell>, q: nat, p: nat, s: seq<nat>)
    requires ChainFrom(m, q, p, s)
    ensures FreeList(m, q, Range(q, p + 1) + s) && Elements(Range(q, p + 1) + s) == Interval(q, p + 1) + Elements(s)
  {
    hide FreeList, Elements, Range;
  }

  lemma ChainStep(m: seq<Cell>, q: nat, p: nat, s: seq<nat>)
    requires 0 < q < p < |m| && ChainFrom(m, q + 1, p, s) && q !in Elements(s)
    requires m[q].kind == FreeCell && !m[q].mark && m[q].w1 == q + 1
    ensures ChainFrom(m, q, p, s)
  {
    hide FreeList, Elements, Interval;
    var r, t := Range(q + 1, p + 1), Range(q + 1, p + 1) + s;
    assert Range(q, p + 1) == [q] + r;
    hide Range;
    assert ([q] + r) + s == [q] + t;
    FreeListCons(m, q, t);
    IntervalMore(q, p + 1);
  }

  lemma IntervalMore(lo: int, hi: int)
    requires lo < hi
    ensures Interval(lo, hi) == Interval(lo + 1, hi) + {lo}
  {
    hide Interval;
    assert forall x :: x in Interval(lo, hi) <==> x in Interval(lo + 1, hi) + {lo};
  }

  lemma ChainLast(m: seq<Cell>, p: nat, head: int, s: seq<nat>)
    requires 0 < p < |m| && FreeList(m, head, s) && p as int !in Elements(s)
    requires m[p].kind == FreeCell && !m[p].mark && m[p].w1 == head
    ensures ChainFrom(m, p, p, s)
  {
    assert Range(p, p + 1) == [p] && Interval(p, p + 1) == {p as int};
    hide FreeList, Elements, Range;
    FreeListCons(m, p, s);
  }

  /** Linking the last cell to the old free list makes the chain a free list. */
  lemma ChainIsFree(m: seq<Cell>, m1: seq<Cell>, m2: seq<Cell>, lo: nat, p: nat, head: int, s: seq<nat>)
    requires Chained(m, m1, lo, p) && 0 < lo <= p < |m| && FreeList(m, head, s)
    requires |m1| == |m| && m2 == m1[p := m1[p].(kind := FreeCell, w1 := head)]
    requires forall x :: lo <= x <= p ==> !m[x].mark && x !in Elements(s)
    ensures ChainFrom(m2, lo, p, s)
    ensures forall x :: 0 < x < |m| && !(lo <= x <= p) ==> m2[x] == m[x]
  {
    hide FreeList, Elements, ChainFrom;
    FreeListFrame(m, m2, head, s);
    ChainLast(m2, p, head, s);
    ChainDown(m, m2, lo, p, p, s);
  }

  lemma {:induction false} ChainDown(m: seq<Cell>, m2: seq<Cell>, lo: nat, q: nat, p: nat, s: seq<nat>)
    requires 0 < lo <= q <= p < |m| == |m2| && ChainFrom(m2, q, p, s)
    requires forall x :: lo <= x < p ==> m2[x].kind == FreeCell && !m2[x].mark && m2[x].w1 == x + 1
    requires forall x :: lo <= x <= p ==> x !in Elements(s)
    ensures ChainFrom(m2, lo, p, s)
    decreases q - lo
  {
    hide ChainFrom, Elements;
    if lo < q {
      ChainStep(m2, q - 1, p, s);
      ChainDown(m, m2, lo, q - 1, p, s);
    }
  }

  lemma MulNonNegative(j: nat, n: nat)
    ensures 0 <= j * n
  {
  }

  lemma {:induction false} MulMono(j: nat, k: nat, n: nat)
    requires j <= k
    ensures j * n <= k * n && (j + 1) * n == j * n + n
  {
  }

  lemma WordInHeap(p: int, h: nat, n: nat)
    requires CELL_BYTES * h <= p < CELL_BYTES * (h + n) && (p - CELL_BYTES * h) % CELL_BYTES == 0
    ensures p % CELL_BYTES == 0 && h <= p / CELL_BYTES < h + n
  {
  }

  lemma EmptyHeap(m: seq<Cell>, hi: nat, top: nat)
    requires 1 <= hi == top <= |m| && (forall x :: 0 <= x < |m| ==> !m[x].mark)
    ensures FreeList(m, 0, []) && Parts({}, {}, Elements([]), Interval(1, hi), top)
    ensures CellsOk(m, map[], {}) && InUse(m, {}) && Clear(m, top)
  {
    hide Interval;
    assert OwnedBlocks(m, {}) == {};
  }

  lemma NoRoots(g: seq<int>)
    ensures InRange([], |g|) && RootsMarked(Roots(g, []), {})
  {
  }

  lemma MoreRoots(g: seq<int>, regs: seq<Register>, r: Register, cells: set<int>)
    requires RootsMarked(Roots(g, regs), cells) && r.location + r.length <= |g|
    requires forall a :: r.location <= a < r.location + r.length ==> g[a] == 0 || g[a] in cells
    ensures RootsMarked(Roots(g, [r] + regs), cells)
  {
    RegisterMore(g, regs, r);
    hide Roots;
  }

  lemma AllocatedArePositive(cells: set<int>, F: set<int>, U: set<int>, top: int)
    requires Parts(cells, {}, F, U, top)
    ensures forall x :: x in cells ==> 0 < x
  {
  }

  lemma BlocksOwned(m: seq<Cell>, b: Blocks, cells: set<int>)
    requires CellsOk(m, b, cells)
    ensures b.Keys == OwnedBlocks(m, cells)
  {
  }

  /** The cells `kept` are all those that were in use, or, after a collection, exactly those
      the roots led to. */
  ghost predicate Spared(m: seq<Cell>, b: Blocks, roots: seq<int>, was: set<int>, kept: set<int>) {
    kept == was || Reached(m, b, roots, kept)
  }

  lemma ReachedIs(m: seq<Cell>, b: Blocks, roots: seq<int>, S: set<int>)
    ensures Reached(m, b, roots, S) <==> forall x :: x in S <==> Reachable(m, b, roots, x)
  {
    hide Reachable;
  }

  lemma SparedIs(m: seq<Cell>, b: Blocks, roots: seq<int>, was: set<int>, kept: set<int>)
    requires kept == was || Reached(m, b, roots, kept)
    ensures Spared(m, b, roots, was, kept)
  {
    hide Reached;
  }

  /** A step of a program, with whatever else is in the saved registers and on the C stack at
      the time. */
  datatype Timed = Timed(op: Op, saved: seq<int>, noise: seq<int>)

  /** The words that a step itself has on the stack. */
  function Held(op: Op, s: Snapshot): seq<int> {
    match op
    case Make(_, _, _, _, b, c) => [CELL_BYTES * At(s, b), CELL_BYTES * At(s, c)]
    case MakeArray(_, _, _, _) => [0]
    case _ => []
  }

  /** What a collection in this step would take for roots. */
  function StepRoots(step: Timed, s: Snapshot): seq<int> {
    AllRoots(step.saved, s.globals, s.regs, Held(step.op, s) + step.noise, s.cells)
  }

  /** The roots lead to every cell there is. */
  ghost predicate Full(s: Snapshot, roots: seq<int>) {
    Reached(s.mem, s.blocks, roots, Interval(1, |s.mem|))
  }

  /** A new cell has been made and stored, beside all the cells that were in use or, after
      a collection, just those the roots led to.  When an operand is not a location, or not
      of the right kind, nothing happens; when the roots lead to every cell of memory, no
      cell is made; and these are the only reasons. */
  ghost predicate Allocates(step: Timed, s: Snapshot, t: Snapshot)
    requires step.op.Make? || step.op.MakeArray?
  {
    var roots := StepRoots(step, s);
    if !Operands(step.op, s) then t == s
    else
      && LiveKept(s, t, roots)
      && if Full(s, roots) then t.globals == s.globals && t.regs == s.regs && t.cells == Interval(1, |s.mem|)
         else exists z :: Makes(step.op, s, t, roots, t.cells - {z}, z) && Spared(s.mem, s.blocks, roots, s.cells, t.cells - {z})
  }

  /** What a step does.  A collection leaves the blocks of what the roots lead to and frees
      all others. */
  ghost predicate Effect(step: Timed, s: Snapshot, t: Snapshot) {
    match step.op
    case Make(_, _, _, _, _, _) => Allocates(step, s, t)
    case MakeArray(_, _, _, _) => Allocates(step, s, t)
    case Protect(location, n) =>
      t == if location + n <= |s.globals| && AllNil(s.globals, location, n) then s.(regs := [Register(location, n)] + s.regs) else s
    case Collect =>
      var roots := StepRoots(step, s);
      LiveKept(s, t, roots) && t.globals == s.globals && t.regs == s.regs && Frees(s, t, roots, t.cells)
    case _ => Updates(step.op, s, t)
  }

  /** What the protected locations lead to survives whatever else is on the stack. */
  lemma ProtectedKept(step: Timed, s: Snapshot, t: Snapshot)
    requires LiveKept(s, t, StepRoots(step, s))
    ensures LiveKept(s, t, Roots(s.globals, s.regs))
  {
    hide Reachable, CellKept, AllRoots;
    forall w | Reachable(s.mem, s.blocks, Roots(s.globals, s.regs), w)
      ensures CellKept(s.mem, s.blocks, t.mem, t.blocks, w)
    {
      RegistersAreRoots(s.mem, s.blocks, step.saved, s.globals, s.regs, Held(step.op, s) + step.noise, s.cells, w);
    }
  }

  lemma StepRootsIs(step: Timed, s: Snapshot, stack: seq<int>)
    requires match step.op
             case Make(_, _, _, _, b, c) => stack == [CELL_BYTES * At(s, b), CELL_BYTES * At(s, c)] + step.noise
             case MakeArray(_, _, _, _) => stack == [0] + step.noise
             case _ => stack == step.noise
    ensures StepRoots(step, s) == AllRoots(step.saved, s.globals, s.regs, stack, s.cells)
  {
    assert stack == Held(step.op, s) + step.noise;
    hide AllRoots;
  }

  lemma ReachedKept(s: Snapshot, t: Snapshot, roots: seq<int>)
    requires Reached(s.mem, s.blocks, roots, t.cells) && Kept(s.mem, s.blocks, t.mem, t.blocks, t.cells)
    ensures LiveKept(s, t, roots)
  {
    hide Reachable, CellKept;
  }

  lemma LiveFrom(s: Snapshot, t: Snapshot, roots: seq<int>)
    requires forall w :: Reachable(s.mem, s.blocks, roots, w) ==> CellKept(s.mem, s.blocks, t.mem, t.blocks, w)
    ensures LiveKept(s, t, roots)
  {
    hide Reachable, CellKept;
  }

  /** The blocks of cells that are kept. */
  lemma SameOwners(m: seq<Cell>, b: Blocks, m2: seq<Cell>, b2: Blocks, S: set<int>)
    requires Kept(m, b, m2, b2, S)
    ensures OwnedBlocks(m2, S) == OwnedBlocks(m, S)
  {
    assert forall x :: x in S ==> 0 < x < |m| == |m2| && m2[x] == m[x] by {
      forall x | x in S
        ensures 0 < x < |m| == |m2| && m2[x] == m[x]
      {
        assert CellKept(m, b, m2, b2, x);
      }
    }
    hide Kept, OwnsBlock;
  }

  lemma EffectOfMaking(step: Timed, s: Snapshot, t: Snapshot, z: int)
    requires (step.op.Make? || step.op.MakeArray?) && Operands(step.op, s) && LiveKept(s, t, StepRoots(step, s)) && |t.mem| == |s.mem|
    requires Makes(step.op, s, t, StepRoots(step, s), t.cells - {z}, z)
    requires Spared(s.mem, s.blocks, StepRoots(step, s), s.cells, t.cells - {z})
    ensures Effect(step, s, t)
  {
    hide LiveKept, Operands, StepRoots, Spared, Reachable;
    assert z in Interval(1, |s.mem|) && !Full(s, StepRoots(step, s));
    hide Makes;
  }

  lemma EffectOfFailing(step: Timed, s: Snapshot, t: Snapshot)
    requires (step.op.Make? || step.op.MakeArray?) && Operands(step.op, s) && LiveKept(s, t, StepRoots(step, s))
    requires Full(s, StepRoots(step, s)) && t.globals == s.globals && t.regs == s.regs && t.cells == Interval(1, |s.mem|)
    ensures Effect(step, s, t)
  {
    hide LiveKept, Operands, StepRoots, Full;
  }

  lemma EffectOfNothing(step: Timed, s: Snapshot)
    requires (step.op.Make? || step.op.MakeArray?) && !Operands(step.op, s)
    ensures Effect(step, s, s)
  {
    hide Operands;
  }

  lemma EffectOfUpdate(step: Timed, s: Snapshot, t: Snapshot)
    requires (step.op.SetCons? || step.op.SetValue? || step.op.SetElement? || step.op.Copy?) && Updates(step.op, s, t)
    ensures Effect(step, s, t)
  {
    hide Updates;
  }

  lemma CollectIs(step: Timed, s: Snapshot, t: Snapshot)
    requires step.op.Collect? && LiveKept(s, t, StepRoots(step, s)) && t.regs == s.regs && t.globals == s.globals
    requires Reached(s.mem, s.blocks, StepRoots(step, s), t.cells) && t.blocks.Keys == OwnedBlocks(s.mem, t.cells)
    ensures Effect(step, s, t)
  {
    hide LiveKept, Reached, OwnedBlocks, StepRoots;
  }

  lemma ProtectIs(step: Timed, s: Snapshot, t: Snapshot)
    requires step.op.Protect? && t == s.(regs := t.regs)
    requires var n := step.op.n;
             var location := step.op.location;
             if location + n <= |s.globals| && AllNil(s.globals, location, n) then
               t.regs == [Register(location, n)] + s.regs else t == s
    ensures Effect(step, s, t)
  {
    hide AllNil;
  }

  lemma RegistersAreRoots(m: seq<Cell>, b: Blocks, saved: seq<int>, g: seq<int>, regs: seq<Register>, stack: seq<int>, cells: set<int>, x: int)
    requires Reachable(m, b, Roots(g, regs), x)
    ensures Reachable(m, b, AllRoots(saved, g, regs, stack, cells), x)
  {
    var k, path :| 0 <= k < |Roots(g, regs)| && Walk(m, b, Roots(g, regs)[k], path) == x;
    var roots := AllRoots(saved, g, regs, stack, cells);
    assert roots[|saved| + k] == Roots(g, regs)[k];
  }

  class MarkHeap {
    const heapSize: nat
    const nheaps: nat
    const mem: array<Cell>       // index 0 is NIL
    const heaps: array<nat>      // first cell of each heap, 0 while unallocated
    const globals: array<int>    // the C variables that may be protected
    var heap: nat
    var heapEnd: nat
    var freelist: nat
    var blocks: Blocks
    var regs: seq<Register>
    var cellsCollected: nat
    ghost var active: nat        // how many heaps are allocated
    ghost var top: nat           // one past the last cell of an active heap
    ghost var cells: set<int>    // the allocated cells
    ghost var free: seq<nat>     // the free list

    /** siod_init_storage_1: one heap, all of it unborn, and nothing protected yet. */
    constructor (heapSize: nat, nheaps: nat, nglobals: nat)
      requires 0 < heapSize && 0 < nheaps
      ensures Valid() && cells == {} && active == 1 && regs == [] && fresh(mem) && fresh(heaps) && fresh(globals)
    {
      hide *;
      MulNonNegative(nheaps, heapSize);
      this.heapSize := heapSize;
      this.nheaps := nheaps;
      mem := new Cell[1 + nheaps * heapSize](_ => Cell(false, FreeCell, 0, 0));
      heaps := new nat[nheaps](k => if k == 0 then 1 else 0);
      globals := new int[nglobals](_ => 0);
      heap, heapEnd, freelist := 1, 1 + heapSize, 0;
      blocks, regs, cellsCollected := map[], [], 0;
      active, top, cells, free := 1, 1 + heapSize, {}, [];
      new;
      FirstHeap();
      Bounds();
      EmptyHeap(mem[..], heapEnd, top);
      NoRoots(globals[..]);
      ReadyIs({}, freelist);
      ValidIs();
    }

    lemma FirstHeap()
      requires 0 < heapSize && 0 < nheaps && mem.Length == 1 + nheaps * heapSize && heaps.Length == nheaps
      requires forall k :: 0 <= k < nheaps ==> heaps[k] == if k == 0 then 1 else 0
      requires heap == 1 && heapEnd == 1 + heapSize && active == 1 && top == 1 + heapSize
      ensures Geometry()
    {
      BaseMono(0, 1);
    }

    function Base(k: nat): (a: nat)
      ensures 0 < a
    {
      MulNonNegative(k, heapSize);
      1 + k * heapSize
    }

    /** The heaps are allocated in order, and heap 0 holds the unborn region. */
    ghost predicate Geometry()
      reads this`heap, this`heapEnd, this`active, this`top, heaps
    {
      && 0 < heapSize && mem.Length == Base(nheaps) && heaps.Length == nheaps
      && 1 <= active <= nheaps && top == Base(active)
      && (forall k :: 0 <= k < nheaps ==> heaps[k] == if k < active then Base(k) else 0)
      && heapEnd == 1 + heapSize && 1 <= heap <= heapEnd
    }

    /** Every cell of an active heap is exactly one of allocated, free, unborn, or in T:
        taken off the free list but not filled in yet. */
    ghost predicate Ready(T: set<int>, head: int)
      reads this, mem, heaps, globals
    {
      && Geometry()
      && FreeList(mem[..], head, free)
      && Parts(cells, T, Elements(free), Interval(heap, heapEnd), top)
      && CellsOk(mem[..], blocks, cells) && InUse(mem[..], cells)
      && InRange(regs, globals.Length) && RootsMarked(Roots(globals[..], regs), cells)
      && Clear(mem[..], top)
    }

    /** Holds between allocations. */
    ghost predicate Valid()
      reads this, mem, heaps, globals
    {
      Ready({}, freelist)
    }

    lemma BaseMono(j: nat, k: nat)
      requires j <= k
      ensures Base(j) <= Base(k) && Base(j + 1) == Base(j) + heapSize
      ensures j < k ==> Base(j) + heapSize <= Base(k)
    {
      MulMono(j, k, heapSize);
      if j < k {
        MulMono(j + 1, k, heapSize);
      }
    }

    lemma {:induction false} WhichHeap(x: nat, n: nat) returns (k: nat)
      requires 0 < x < Base(n)
      ensures k < n && Base(k) <= x < Base(k) + heapSize
    {
      BaseMono(n - 1, n - 1);
      if Base(n - 1) <= x {
        k := n - 1;
      } else {
        k := WhichHeap(x, n - 1);
      }
    }

    /** Could the word p be a pointer to a cell in use? */
    method LooksPointerp(p: int, ghost m0: seq<Cell>) returns (r: bool)
      requires Geometry() && Prepared(m0, blocks, cells, top) && |m0| == mem.Length
      requires forall x :: 0 < x < mem.Length ==> mem[x].kind == m0[x].kind
      ensures r <==> p % CELL_BYTES == 0 && p / CELL_BYTES in cells
    {
      hide CellsOk;
      for j := 0 to nheaps
        invariant forall k :: 0 <= k < j && k < active && p % CELL_BYTES == 0 ==>
                    !(Base(k) <= p / CELL_BYTES < Base(k) + heapSize) || p / CELL_BYTES !in cells
      {
        var h := heaps[j];
        if h != 0 {
          BaseMono(j, active);
          BaseMono(j, nheaps);
          if CELL_BYTES * h <= p < CELL_BYTES * (h + heapSize) && (p - CELL_BYTES * h) % CELL_BYTES == 0 {
            WordInHeap(p, h, heapSize);
            if mem[p / CELL_BYTES].kind != FreeCell {
              return true;
            }
          }
        }
      }
      if p % CELL_BYTES == 0 && p / CELL_BYTES in cells {
        var k := WhichHeap(p / CELL_BYTES, active);
        assert false;
      }
      return false;
    }

    /** Set the mark of `p0` and of everything reachable from it that is not marked yet. */
    method GcMark(p0: int, ghost m0: seq<Cell>, ghost R: set<int>)
      requires Marking(mem[..], m0, R) && Sealed(m0, blocks, R) && (p0 == 0 || p0 in R)
      modifies mem
      ensures Marking(mem[..], m0, R)
      ensures old(Marked(mem[..], R)) <= Marked(mem[..], R)
      ensures p0 == 0 || p0 in Marked(mem[..], R)
      ensures Traced(m0, blocks, old(Marked(mem[..], R)), Marked(mem[..], R), {})
      decreases R - Marked(mem[..], R), 0
    {
      hide Marking, Sealed, Traced, Marked, ChildrenIn;
      var ptr := p0;
      ghost var M := Marked(mem[..], R);
      TracedNone(m0, blocks, M, {ptr});
      while true
        invariant Marking(mem[..], m0, R) && (ptr == 0 || ptr in R)
        invariant M <= Marked(mem[..], R)
        invariant p0 == 0 || p0 in Marked(mem[..], R) || p0 == ptr
        invariant Traced(m0, blocks, M, Marked(mem[..], R), {ptr})
        decreases R - Marked(mem[..], R)
      {
        ghost var Mp := Marked(mem[..], R);
        MarkOne(mem[..], m0, blocks, R, ptr);
        if ptr == 0 || mem[ptr].mark {
          TracedEnd(m0, blocks, M, Mp, ptr);
          return;
        }
        ghost var m := mem[..];
        mem[ptr] := mem[ptr].(mark := true);
        assert mem[..] == m[ptr := m[ptr].(mark := true)];
        ghost var p := ptr;
        match mem[ptr].kind
        case Cons =>
          GcMark(mem[ptr].w0, m0, R);
          ptr := SameWords(m0, R, ptr).w1;
          PairTraced(m0, blocks, p, Marked(mem[..], R), m0[p].w0, ptr);
          TracedMore(m0, blocks, M, Mp + {p}, Marked(mem[..], R), p, {ptr});
        case Symbol =>
          ptr := mem[ptr].w1;
          PairTraced(m0, blocks, p, Mp + {p}, 0, ptr);
          TracedNone(m0, blocks, Mp + {p}, {});
          TracedMore(m0, blocks, M, Mp + {p}, Mp + {p}, p, {ptr});
        case Closure =>
          GcMark(mem[ptr].w1, m0, R);
          ptr := SameWords(m0, R, ptr).w0;
          PairTraced(m0, blocks, p, Marked(mem[..], R), m0[p].w1, ptr);
          TracedMore(m0, blocks, M, Mp + {p}, Marked(mem[..], R), p, {ptr});
        case LispArray =>
          ArrayGcMark(ptr, m0, R);
          assert Marked(mem[..], R) + {} == Marked(mem[..], R);
          TracedMore(m0, blocks, M, Mp + {p}, Marked(mem[..], R), p, {});
          return;
        case _ =>
          AtomTraced(m0, blocks, p, Mp + {p});
          TracedNone(m0, blocks, Mp + {p}, {});
          TracedMore(m0, blocks, M, Mp + {p}, Mp + {p}, p, {});
          return;
      }
    }

    /** The words of a cell while marking. */
    function SameWords(ghost m0: seq<Cell>, ghost R: set<int>, ptr: int): (c: Cell)
      requires Marking(mem[..], m0, R) && 0 < ptr < mem.Length
      reads mem
      ensures ptr < |m0| && c == m0[ptr].(mark := mem[ptr].mark)
    {
      mem[ptr]
    }

    /** Mark the elements of a lisp array. */
    method ArrayGcMark(ptr: nat, ghost m0: seq<Cell>, ghost R: set<int>)
      requires Marking(mem[..], m0, R) && Sealed(m0, blocks, R) && ptr in R && 0 < ptr < mem.Length
      requires mem[ptr].kind == LispArray && ArrayOk(mem[ptr], blocks)
      modifies mem
      ensures Marking(mem[..], m0, R)
      ensures old(Marked(mem[..], R)) <= Marked(mem[..], R)
      ensures ptr < |m0| && ChildrenIn(m0[ptr], blocks, Marked(mem[..], R))
      ensures Traced(m0, blocks, old(Marked(mem[..], R)), Marked(mem[..], R), {})
      decreases R - Marked(mem[..], R), 1
    {
      hide Marking, Sealed, Traced, Marked, ChildrenIn;
      var id, dim := mem[ptr].w1, mem[ptr].w0;
      ghost var M := Marked(mem[..], R);
      ElementsSealed(mem[..], m0, blocks, R, ptr);
      TracedNone(m0, blocks, M, {});
      for j := 0 to dim
        invariant Marking(mem[..], m0, R) && M <= Marked(mem[..], R)
        invariant forall i :: 0 <= i < j ==> blocks[id][i] == 0 || blocks[id][i] in Marked(mem[..], R)
        invariant Traced(m0, blocks, M, Marked(mem[..], R), {})
      {
        ghost var M1 := Marked(mem[..], R);
        GcMark(blocks[id][j], m0, R);
        TracedTrans(m0, blocks, M, M1, Marked(mem[..], R));
      }
      ElementsTraced(m0, blocks, ptr, Marked(mem[..], R));
    }

    /** What holds while the roots are being marked. */
    ghost predicate MarkingRoots(m0: seq<Cell>, R: set<int>)
      reads this, mem, heaps
    {
      && Geometry() && |m0| == mem.Length && Prepared(m0, blocks, cells, top) && R <= cells
      && MarkedSoFar(mem[..], m0, blocks, R)
    }

    /** Mark from one root. */
    method MarkRoot(p: int, ghost m0: seq<Cell>, ghost R: set<int>)
      requires MarkingRoots(m0, R) && (p == 0 || p in R)
      modifies mem
      ensures MarkingRoots(m0, R)
      ensures old(Marked(mem[..], R)) <= Marked(mem[..], R) && (p == 0 || p in Marked(mem[..], R))
    {
      hide Prepared, Marking, Sealed, Traced, Marked;
      ghost var m1 := mem[..];
      GcMark(p, m0, R);
      MarkMore(m1, mem[..], m0, blocks, R);
    }

    /** Mark from every word of an array that looks like a pointer. */
    method MarkLocationsArray(x: seq<int>, ghost m0: seq<Cell>, ghost R: set<int>)
      requires MarkingRoots(m0, R) && RootsMarked(StackRoots(x, cells), R)
      modifies mem
      ensures MarkingRoots(m0, R)
      ensures old(Marked(mem[..], R)) <= Marked(mem[..], R)
      ensures RootsMarked(StackRoots(x, cells), Marked(mem[..], R))
    {
      hide Prepared, MarkedSoFar, Marked;
      for j := 0 to |x|
        invariant MarkingRoots(m0, R)
        invariant old(Marked(mem[..], R)) <= Marked(mem[..], R)
        invariant forall i :: 0 <= i < j ==> StackRoot(x[i], cells) == 0 || StackRoot(x[i], cells) in Marked(mem[..], R)
      {
        SameKinds(mem[..], m0, blocks, R);
        var looks := LooksPointerp(x[j], m0);
        if looks {
          assert StackRoots(x, cells)[j] == x[j] / CELL_BYTES;
          MarkRoot(x[j] / CELL_BYTES, m0, R);
        }
      }
    }

    /** Mark from one protected range; `done` locations precede it. */
    method MarkRegister(reg: Register, ghost all: seq<nat>, ghost done: nat, ghost m0: seq<Cell>, ghost R: set<int>)
      requires MarkingRoots(m0, R) && all == Locations(regs) && InRange(regs, globals.Length)
      requires RootsMarked(Roots(globals[..], regs), R)
      requires done + reg.length <= |all| && all[done..done + reg.length] == Span(reg)
      requires RootsMarked(Roots(globals[..], regs)[..done], Marked(mem[..], R))
      modifies mem
      ensures MarkingRoots(m0, R)
      ensures old(Marked(mem[..], R)) <= Marked(mem[..], R)
      ensures RootsMarked(Roots(globals[..], regs)[..done + reg.length], Marked(mem[..], R))
    {
      hide *;
      ghost var roots := Roots(globals[..], regs);
      for j := 0 to reg.length
        invariant MarkingRoots(m0, R) && done + j <= |roots|
        invariant old(Marked(mem[..], R)) <= Marked(mem[..], R)
        invariant RootsMarked(roots[..done + j], Marked(mem[..], R))
      {
        NextRoot(globals[..], regs, reg, done, j);
        RootIn(roots, done + j, R);
        ghost var M1 := Marked(mem[..], R);
        MarkRoot(globals[reg.location + j], m0, R);
        RootsStillMarked(roots[..done + j], M1, Marked(mem[..], R));
        RootsOneMore(roots, done + j, Marked(mem[..], R));
      }
    }

    method MarkProtectedRegisters(ghost m0: seq<Cell>, ghost R: set<int>)
      requires MarkingRoots(m0, R) && InRange(regs, globals.Length) && RootsMarked(Roots(globals[..], regs), R)
      modifies mem
      ensures MarkingRoots(m0, R)
      ensures old(Marked(mem[..], R)) <= Marked(mem[..], R)
      ensures RootsMarked(Roots(globals[..], regs), Marked(mem[..], R))
    {
      hide MarkingRoots, Marked;
      ghost var all, roots := Locations(regs), Roots(globals[..], regs);
      var reg := regs;
      ghost var done := 0;
      while reg != []
        invariant done + |Locations(reg)| == |all| && all[done..] == Locations(reg)
        invariant MarkingRoots(m0, R)
        invariant old(Marked(mem[..], R)) <= Marked(mem[..], R)
        invariant RootsMarked(roots[..done], Marked(mem[..], R))
      {
        ghost var n := reg[0].length;
        assert all[done..done + n] == all[done..][..n] == Span(reg[0]);
        MarkRegister(reg[0], all, done, m0, R);
        assert all[done..][n..] == all[done + n..];
        reg := reg[1..];
        done := done + n;
      }
      assert roots[..done] == roots;
    }

    /** The unborn cells become free cells before a collection. */
    method ClearRemainder()
      requires 0 < heap <= heapEnd <= mem.Length
      modifies this`heap, mem
      ensures heap == heapEnd && Cleared(old(mem[..]), mem[..], old(heap), heapEnd)
    {
      hide Cleared;
      ghost var m, h := mem[..], heap;
      ClearedNone(m, h);
      while heap < heapEnd
        invariant h <= heap <= heapEnd && Cleared(m, mem[..], h, heap)
      {
        ghost var m1 := mem[..];
        mem[heap] := mem[heap].(kind := FreeCell, mark := false);
        assert mem[..] == m1[heap := m1[heap].(kind := FreeCell, mark := false)];
        ClearedOne(m, m1, h, heap);
        heap := heap + 1;
      }
    }

    lemma ReadyFacts(T: set<int>, head: int)
      requires Ready(T, head)
      ensures Geometry() && 0 < heap <= heapEnd <= top <= mem.Length && active <= nheaps
      ensures FreeList(mem[..], head, free)
      ensures InRange(regs, globals.Length) && RootsMarked(Roots(globals[..], regs), cells)
      ensures Parts(cells, T, Elements(free), Interval(heap, heapEnd), top)
      ensures CellsOk(mem[..], blocks, cells) && InUse(mem[..], cells) && Clear(mem[..], top)
      ensures forall x :: x in Elements(free) ==> 0 < x < mem.Length && mem[x].kind == FreeCell && !mem[x].mark
    {
      hide FreeList, CellsOk, InUse, Clear, InRange, RootsMarked, Parts;
      Bounds();
      FreeListFacts(mem[..], head, free);
    }

    method ArrayGcFree(ptr: nat)
      requires 0 < ptr < mem.Length && OwnsBlock(mem[ptr]) && mem[ptr].w1 in blocks
      modifies this`blocks, mem
      ensures blocks == old(blocks) - {old(mem[ptr].w1)}
      ensures mem[..] == old(mem[..])[ptr := old(mem[ptr]).(w1 := 0)]
    {
      blocks := blocks - {mem[ptr].w1};
      mem[ptr] := mem[ptr].(w1 := 0);
    }

    /** Sweep one cell, adding it to the new free list if it is not marked. */
    method SweepCell(ptr: nat, nfreelist: nat, ghost nfree: seq<nat>,
                     ghost m0: seq<Cell>, ghost b0: Blocks, ghost R: set<int>)
        returns (nf: nat, ghost nf': seq<nat>)
      requires Swept(mem[..], m0, blocks, b0, cells, R, ptr, nfreelist, nfree)
      requires Sweepable(m0, b0, cells, R, top) && ptr < top
      modifies this`blocks, mem
      ensures Swept(mem[..], m0, blocks, b0, cells, R, ptr + 1, nf, nf')
      ensures |nf'| == |nfree| + if ptr in R then 0 else 1
    {
      hide Swept, Sweepable;
      SweepFacts(mem[..], m0, blocks, b0, cells, R, ptr, nfreelist, nfree, top);
      ghost var m := mem[..];
      if !mem[ptr].mark {
        SweepDead(m, m0, blocks, b0, cells, R, ptr, nfreelist, nfree, top);
        if OwnsBlock(mem[ptr]) {
          ArrayGcFree(ptr);
        }
        mem[ptr] := mem[ptr].(kind := FreeCell, w1 := nfreelist);
        assert mem[..] == m[ptr := m[ptr].(kind := FreeCell, w1 := nfreelist)];
        nf, nf' := ptr, [ptr] + nfree;
      } else {
        SweepLive(m, m0, blocks, b0, cells, R, ptr, nfreelist, nfree, top);
        mem[ptr] := mem[ptr].(mark := false);
        assert mem[..] == m[ptr := m[ptr].(mark := false)];
        nf, nf' := nfreelist, nfree;
      }
    }

    method GcSweep(ghost m0: seq<Cell>, ghost b0: Blocks, ghost R: set<int>)
      requires Geometry() && Sweepable(m0, b0, cells, R, top)
      requires Swept(mem[..], m0, blocks, b0, cells, R, 1, 0, [])
      modifies this`blocks, this`freelist, this`cellsCollected, this`free, mem
      ensures Swept(mem[..], m0, blocks, b0, cells, R, top, freelist, free) && cellsCollected == |free|
    {
      hide Swept, Sweepable;
      var n := 0;
      var nfreelist := 0;
      ghost var nfree: seq<nat> := [];
      ghost var pos := 1;
      MulMono(0, 0, heapSize);
      for k := 0 to nheaps
        invariant pos == if k <= active then Base(k) else top
        invariant Swept(mem[..], m0, blocks, b0, cells, R, pos, nfreelist, nfree) && n == |nfree|
      {
        if heaps[k] != 0 {
          var org := heaps[k];
          var end := org + heapSize;
          BaseMono(k, active);
          for ptr := org to end
            invariant Swept(mem[..], m0, blocks, b0, cells, R, ptr, nfreelist, nfree) && n == |nfree|
          {
            SweepFacts(mem[..], m0, blocks, b0, cells, R, ptr, nfreelist, nfree, top);
            var marked := mem[ptr].mark;
            nfreelist, nfree := SweepCell(ptr, nfreelist, nfree, m0, b0, R);
            if !marked {
              n := n + 1;
            }
          }
          pos := end;
        }
      }
      cellsCollected := n;
      freelist := nfreelist;
      free := nfree;
    }

    lemma Bounds()
      requires Geometry()
      ensures heapEnd <= top <= mem.Length
    {
      BaseMono(1, active);
      BaseMono(active, nheaps);
    }

    /** Make memory ready to be marked. */
    method Prepare()
      requires Ready({}, freelist)
      modifies this`heap, mem
      ensures Geometry() && heap == heapEnd
      ensures Cleared(old(mem[..]), mem[..], old(heap), heapEnd) && Prepared(mem[..], blocks, cells, top)
      ensures RootsMarked(Roots(globals[..], regs), cells) && InRange(regs, globals.Length)
      ensures forall x :: x in cells ==> 0 < x < mem.Length && mem[x] == old(mem[x])
    {
      hide *;
      ReadyFacts({}, freelist);
      ghost var m, h := mem[..], heap;
      ClearRemainder();
      AtEnd();
      PreparedIs(m, mem[..], blocks, cells, Elements(free), h, heapEnd, top);
    }

    twostate lemma AtEnd()
      requires old(Geometry()) && heap == old(heapEnd)
      requires heapEnd == old(heapEnd) && active == old(active) && top == old(top)
      requires forall k :: 0 <= k < heaps.Length ==> heaps[k] == old(heaps[k])
      ensures Geometry()
    {
    }

    /** Mark everything reachable from the saved registers, the protected registers and
        the stack, in that order. */
    method MarkAll(saved: seq<int>, stack: seq<int>, ghost R: set<int>)
      requires Geometry() && Prepared(mem[..], blocks, cells, top) && InRange(regs, globals.Length)
      requires RootsMarked(Roots(globals[..], regs), cells)
      requires R == ReachableCells(mem[..], blocks, AllRoots(saved, globals[..], regs, stack, cells), cells)
      modifies mem
      ensures MarkedSoFar(mem[..], old(mem[..]), blocks, R) && Marked(mem[..], R) == R && R <= cells
      ensures RootsMarked(Roots(globals[..], regs), R)
      ensures forall x :: x in R <==> Reachable(old(mem[..]), blocks, AllRoots(saved, globals[..], regs, stack, cells), x)
    {
      hide *;
      ghost var m0 := mem[..];
      ghost var roots := AllRoots(saved, globals[..], regs, stack, cells);
      RootsIn(saved, globals[..], regs, stack, cells);
      BeginMark(m0, blocks, roots, cells, top);
      RootsSplit(saved, globals[..], regs, stack, cells, R);
      StartMarking(m0, R);
      MarkLocationsArray(saved, m0, R);
      ghost var M1 := Marked(mem[..], R);
      MarkProtectedRegisters(m0, R);
      ghost var M2 := Marked(mem[..], R);
      MarkLocationsArray(stack, m0, R);
      RootsStillMarked(StackRoots(saved, cells), M1, Marked(mem[..], R));
      RootsStillMarked(Roots(globals[..], regs), M2, Marked(mem[..], R));
      RootsJoin(saved, globals[..], regs, stack, cells, Marked(mem[..], R));
      StopMarking(m0, R);
      EndMark(mem[..], m0, blocks, roots, cells);
    }

    lemma StartMarking(m0: seq<Cell>, R: set<int>)
      requires Geometry() && m0 == mem[..] && Prepared(m0, blocks, cells, top) && R <= cells
      requires MarkedSoFar(m0, m0, blocks, R)
      ensures MarkingRoots(m0, R)
    {
      hide Prepared, MarkedSoFar, Geometry;
    }

    lemma StopMarking(m0: seq<Cell>, R: set<int>)
      requires MarkingRoots(m0, R)
      ensures MarkedSoFar(mem[..], m0, blocks, R)
    {
      hide Prepared, MarkedSoFar, Geometry;
    }

    /** A collection.  Exactly the cells reachable from the roots survive, unchanged; every
        other cell of an active heap is on the new free list. */
    method GcMarkAndSweep(saved: seq<int>, stack: seq<int>)
      requires Valid()
      modifies this`heap, this`blocks, this`freelist, this`cellsCollected, this`free, this`cells, mem
      ensures Valid() && heap == heapEnd
      ensures Reached(old(mem[..]), old(blocks), AllRoots(saved, globals[..], regs, stack, old(cells)), cells)
      ensures cells <= old(cells) && blocks.Keys <= old(blocks).Keys
      ensures Kept(old(mem[..]), old(blocks), mem[..], blocks, cells)
      ensures Elements(free) == Interval(1, top) - cells && cellsCollected == |free|
    {
      hide *;
      ghost var m, b, roots := mem[..], blocks, AllRoots(saved, globals[..], regs, stack, cells);
      ValidIs();
      Prepare();
      ghost var m0 := mem[..];
      RootsIn(saved, globals[..], regs, stack, cells);
      PreparedOk(m0, b, cells, top);
      SameReachable(m, m0, b, cells, roots);
      ghost var R := ReachableCells(m0, b, roots, cells);
      MarkAll(saved, stack, R);
      ghost var m1 := mem[..];
      BeginSweep(m1, m0, b, cells, R, top);
      GcSweep(m0, b, R);
      MarkedIsSealed(m1, m0, b, R);
      EndSweep(mem[..], m0, blocks, b, cells, R, top, freelist, free);
      KeptAlso(m, m0, b, mem[..], blocks, cells, R);
      cells := R;
      ReachedIs(m, b, roots, R);
      ValidAfterSweep();
    }

    lemma ValidIs()
      ensures Valid() <==> Ready({}, freelist)
    {
      hide Ready;
    }

    lemma ValidAfterSweep()
      requires Geometry() && heap == heapEnd
      requires FreeList(mem[..], freelist, free) && Elements(free) == Interval(1, top) - cells && cells <= Interval(1, top)
      requires CellsOk(mem[..], blocks, cells) && InUse(mem[..], cells) && Clear(mem[..], top)
      requires InRange(regs, globals.Length) && RootsMarked(Roots(globals[..], regs), cells)
      ensures Valid()
    {
      hide Geometry, FreeList, CellsOk, InUse, Clear, InRange, RootsMarked, Elements;
      assert Parts(cells, {}, Elements(free), Interval(heap, heapEnd), top);
    }

    /** Link the cells of the next heap, which starts at org, to each other and put them in front of the free list. */
    method LinkHeap(org: nat)
      requires Valid() && active < nheaps && org == Base(active)
      modifies this`freelist, mem
      ensures Geometry() && 0 < org == top && heap <= heapEnd <= top < top + heapSize <= mem.Length
      ensures FreeList(mem[..], freelist, Range(org, org + heapSize) + free)
      ensures Parts(cells, {}, Elements(Range(org, org + heapSize) + free), Interval(heap, heapEnd), org + heapSize)
      ensures CellsOk(mem[..], blocks, cells) && InUse(mem[..], cells) && Clear(mem[..], org + heapSize)
      ensures InRange(regs, globals.Length) && RootsMarked(Roots(globals[..], regs), cells)
      ensures Kept(old(mem[..]), blocks, mem[..], blocks, cells)
    {
      hide *;
      ValidIs();
      ReadyFacts({}, freelist);
      HeapBounds(active);
      NewCellsClear(mem[..], cells, Elements(free), heap, heapEnd, org, org + heapSize);
      ghost var m := mem[..];
      freelist := ChainHeap(org, org + heapSize);
      HeapAdded(m, mem[..], blocks, cells, Elements(free), heap, heapEnd, org, org + heapSize);
    }

    /** Turn the cells of heap j into a chain in front of the free list. */
    method TakeHeap(j: nat)
      requires Valid() && j == active < nheaps
      modifies this`freelist, this`free, this`active, this`top, mem, heaps
      ensures Valid() && active == j + 1 && free == Range(old(top), top) + old(free) && old(top) < top
      ensures Kept(old(mem[..]), blocks, mem[..], blocks, cells)
    {
      hide *;
      LinkHeap(Base(j));
      AddHeap(j);
      ReadyIs({}, freelist);
      ValidIs();
    }

    /** Record heap j, whose cells have just been linked, as active. */
    method AddHeap(j: nat)
      requires Geometry() && j == active < nheaps && 0 < top && heapEnd <= top < top + heapSize <= mem.Length && heap <= heapEnd
      modifies this`free, this`active, this`top, heaps
      ensures Geometry() && active == j + 1 && top == old(top) + heapSize && free == Range(old(top), top) + old(free)
    {
      hide *;
      HeapBounds(j);
      heaps[j] := Base(j);
      free := Range(top, top + heapSize) + free;
      active := active + 1;
      top := top + heapSize;
      HeapTaken(j);
    }

    lemma HeapBounds(j: nat)
      requires Geometry() && j == active < nheaps
      ensures heaps.Length == nheaps && top == Base(j) && 0 < heapSize && top + heapSize <= mem.Length
    {
      BaseMono(j, nheaps);
    }

    twostate lemma HeapTaken(j: nat)
      requires old(Geometry()) && j == old(active) < nheaps && heaps[..] == old(heaps[..])[j := Base(j)]
      requires active == j + 1 && top == old(top) + heapSize && heap == old(heap) && heapEnd == old(heapEnd)
      ensures Geometry()
    {
      BaseMono(j, j + 1);
    }

    lemma ReadyIs(T: set<int>, head: int)
      requires Geometry() && FreeList(mem[..], head, free)
      requires Parts(cells, T, Elements(free), Interval(heap, heapEnd), top)
      requires CellsOk(mem[..], blocks, cells) && InUse(mem[..], cells)
      requires InRange(regs, globals.Length) && RootsMarked(Roots(globals[..], regs), cells)
      requires Clear(mem[..], top)
      ensures Ready(T, head)
    {
      hide Geometry, FreeList, CellsOk, InUse, Clear, InRange, RootsMarked, Parts;
    }

    /** Link the cells from org up to end to each other and then to the free list. */
    method ChainHeap(org: nat, end: nat) returns (head: nat)
      requires 0 < org < end <= mem.Length && FreeList(mem[..], freelist, free)
      requires forall x :: org <= x < end ==> !mem[x].mark && x !in Elements(free)
      modifies mem
      ensures head == org && FreeList(mem[..], head, Range(org, end) + free)
      ensures Elements(Range(org, end) + free) == Interval(org, end) + Elements(free)
      ensures forall x :: 0 < x < mem.Length && !(org <= x < end) ==> mem[x] == old(mem[x])
    {
      hide FreeList, Elements, Chained, ChainFrom, Range, Interval;
      ghost var m := mem[..];
      var ptr := org;
      ChainedNone(m, ptr);
      while true
        invariant org <= ptr < end <= mem.Length && Chained(m, mem[..], org, ptr)
        decreases end - ptr
      {
        ghost var m1 := mem[..];
        mem[ptr] := mem[ptr].(kind := FreeCell);
        var next := ptr + 1;
        if next < end {
          mem[ptr] := mem[ptr].(w1 := next);
          assert mem[..] == m1[ptr := m1[ptr].(kind := FreeCell, w1 := next)];
          ChainedOne(m, m1, org, ptr);
          ptr := next;
        } else {
          mem[ptr] := mem[ptr].(w1 := freelist);
          assert mem[..] == m1[ptr := m1[ptr].(kind := FreeCell, w1 := freelist)];
          ChainIsFree(m, m1, mem[..], org, ptr, freelist, free);
          ChainFromIs(mem[..], org, ptr, free);
          return org;
        }
      }
    }

    /** Allocate the next heap, if there is one left. */
    method AllocateAheap() returns (r: bool)
      requires Valid()
      modifies this`freelist, this`free, this`active, this`top, mem, heaps
      ensures Valid()
      ensures r <==> old(active) < nheaps
      ensures r ==> active == old(active) + 1 && free == Range(old(top), top) + old(free) && old(top) < top
      ensures !r ==> free == old(free) && freelist == old(freelist) && active == old(active) && top == old(top)
      ensures Kept(old(mem[..]), blocks, mem[..], blocks, cells)
    {
      ReadyFacts({}, freelist);
      KeepAll(mem[..], blocks, cells);
      hide Kept, FreeList, CellsOk, InUse, Clear, InRange, RootsMarked, Parts;
      for j := 0 to nheaps
        invariant j <= active && Valid() && mem[..] == old(mem[..]) && heaps[..] == old(heaps[..])
        invariant Kept(old(mem[..]), blocks, mem[..], blocks, cells)
      {
        if heaps[j] == 0 {
          TakeHeap(j);
          return true;
        }
      }
      return false;
    }

    /** Every heap is allocated, and the roots led to every cell of every heap. */
    ghost predicate Exhausted(m: seq<Cell>, b: Blocks, roots: seq<int>)
      reads this
    {
      active == nheaps && top == mem.Length && cells == Interval(1, top) && Reached(m, b, roots, cells)
    }

    /** What a collection or an allocation guarantees to the program: everything that was
        reachable is still allocated and unchanged. */
    twostate predicate Survives(roots: seq<int>)
      reads this`cells, this`blocks, mem
    {
      && cells <= old(cells) && blocks.Keys <= old(blocks).Keys
      && (forall x :: old(Reachable(mem[..], blocks, roots, x)) ==> x in cells)
      && Kept(old(mem[..]), old(blocks), mem[..], blocks, cells)
    }

    lemma KeepSurvives(roots: seq<int>, saved: seq<int>, stack: seq<int>)
      requires Valid() && roots == AllRoots(saved, globals[..], regs, stack, cells)
      ensures forall x :: Reachable(mem[..], blocks, roots, x) ==> x in cells
    {
      hide *;
      ValidIs();
      ReadyFacts({}, freelist);
      RootsIn(saved, globals[..], regs, stack, cells);
      SameReachable(mem[..], mem[..], blocks, cells, roots);
    }

    twostate lemma SurvivesIs(roots: seq<int>)
      requires cells <= old(cells) && blocks.Keys <= old(blocks).Keys
      requires Kept(old(mem[..]), old(blocks), mem[..], blocks, cells)
      requires forall x :: old(Reachable(mem[..], blocks, roots, x)) ==> x in cells
      ensures Survives(roots)
    {
      hide Reachable, Kept;
    }

    twostate lemma SurvivesGives(roots: seq<int>)
      requires Survives(roots)
      ensures cells <= old(cells) && blocks.Keys <= old(blocks).Keys
      ensures Kept(old(mem[..]), old(blocks), mem[..], blocks, cells)
      ensures forall x :: old(Reachable(mem[..], blocks, roots, x)) ==> x in cells
    {
      hide Reachable, Kept;
    }

    /** How many cells, up to 100, are on the free list. */
    method CountFree() returns (n: nat)
      requires FreeList(mem[..], freelist, free)
      ensures n == if |free| < 100 then |free| else 100
    {
      n := 0;
      var l := freelist;
      while n < 100 && l != 0
        invariant n <= |free| && n <= 100 && FreeList(mem[..], l, free[n..])
        decreases 100 - n
      {
        assert free[n..][1..] == free[n + 1..];
        l := mem[l].w1;
        n := n + 1;
      }
    }

    /** Make the next unborn cell the free list. */
    method TakeUnborn()
      requires Ready({}, freelist) && freelist == 0 && heap < heapEnd
      modifies this`freelist, this`heap, mem
      ensures 0 < freelist < mem.Length && Ready({freelist}, mem[freelist].w1)
      ensures forall x :: x in cells && 0 < x < mem.Length ==> mem[x] == old(mem[x])
    {
      hide *;
      ReadyFacts({}, freelist);
      ghost var m := mem[..];
      freelist := heap;
      mem[freelist] := mem[freelist].(w1 := 0);
      heap := heap + 1;
      BumpGeometry();
      UnbornTaken(m, mem[..], blocks, cells, free, freelist, heapEnd, top);
      ReadyIs({freelist}, mem[freelist].w1);
    }

    twostate lemma BumpGeometry()
      requires old(Geometry()) && heap == old(heap) + 1 <= heapEnd == old(heapEnd)
      requires active == old(active) && top == old(top) && heaps[..] == old(heaps[..])
      ensures Geometry()
    {
      assert forall k :: 0 <= k < heaps.Length ==> heaps[k] == heaps[..][k];
    }

    /** The first cell of the free list, which the caller is about to take, is off it. */
    ghost method TakeFirst()
      requires Ready({}, freelist) && free != []
      modifies this`free
      ensures 0 < freelist < mem.Length && Ready({freelist}, mem[freelist].w1) && free == old(free)[1..]
    {
      hide *;
      ReadyFacts({}, freelist);
      FirstTaken(mem[..], cells, freelist, free, heap, heapEnd, top);
      free := free[1..];
      ReadyIs({freelist}, mem[freelist].w1);
    }

    lemma NothingFree(m: seq<Cell>, b: Blocks, roots: seq<int>)
      requires Ready({}, freelist) && free == [] && heap == heapEnd && active == nheaps && Reached(m, b, roots, cells)
      ensures Exhausted(m, b, roots)
    {
      hide CellsOk, InUse, Clear, InRange, RootsMarked, FreeList, Reached;
    }

    lemma ZeroNotUsed(m: seq<Cell>, b: Blocks, roots: seq<int>)
      requires Exhausted(m, b, roots)
      ensures 0 !in cells
    {
      hide Reached;
    }

    /** Put a cell on the free list when it is empty: the next unborn cell, or what a
        collection and possibly a new heap yield.  False means out of storage. */
    method GcForNewcell(saved: seq<int>, stack: seq<int>) returns (ok: bool)
      requires Valid() && freelist == 0
      modifies this`heap, this`blocks, this`freelist, this`cellsCollected, this`free, this`cells, this`active, this`top, mem, heaps
      ensures Survives(AllRoots(saved, globals[..], regs, stack, old(cells)))
      ensures Spared(old(mem[..]), old(blocks), AllRoots(saved, globals[..], regs, stack, old(cells)), old(cells), cells)
      ensures ok ==> 0 < freelist < mem.Length && Ready({freelist}, mem[freelist].w1)
      ensures !ok ==> Valid() && Exhausted(old(mem[..]), old(blocks), AllRoots(saved, globals[..], regs, stack, old(cells)))
    {
      hide *;
      ghost var roots := AllRoots(saved, globals[..], regs, stack, cells);
      if heap < heapEnd {
        KeepSurvives(roots, saved, stack);
        ghost var m := mem[..];
        ValidIs();
        ReadyFacts({}, freelist);
        TakeUnborn();
        ReadyFacts({freelist}, mem[freelist].w1);
        KeepAll(mem[..], blocks, cells);
        KeptWas(m, mem[..], blocks, cells);
        SurvivesIs(roots);
        SparedIs(m, blocks, roots, cells, cells);
        return true;
      }
      ok := CollectOrGrow(saved, stack);
      SparedIs(old(mem[..]), old(blocks), roots, old(cells), cells);
    }

    /** The collection in GcForNewcell, and the new heap when little was freed. */
    method CollectOrGrow(saved: seq<int>, stack: seq<int>) returns (ok: bool)
      requires Valid()
      modifies this`heap, this`blocks, this`freelist, this`cellsCollected, this`free, this`cells, this`active, this`top, mem, heaps
      ensures Survives(AllRoots(saved, globals[..], regs, stack, old(cells)))
      ensures Reached(old(mem[..]), old(blocks), AllRoots(saved, globals[..], regs, stack, old(cells)), cells)
      ensures ok ==> 0 < freelist < mem.Length && Ready({freelist}, mem[freelist].w1)
      ensures !ok ==> Valid() && Exhausted(old(mem[..]), old(blocks), AllRoots(saved, globals[..], regs, stack, old(cells)))
    {
      hide *;
      ghost var m, b := mem[..], blocks;
      GcMarkAndSweep(saved, stack);
      ghost var m1 := mem[..];
      ValidIs();
      ReadyFacts({}, freelist);
      var n := CountFree();
      KeepAll(m1, blocks, cells);
      ok := true;
      if n == 0 {
        ok := AllocateAheap();
      } else if n < 100 {
        var _ := AllocateAheap();
      }
      KeptTrans(m, b, m1, blocks, mem[..], blocks, cells, cells);
      ReachedIs(m, b, AllRoots(saved, globals[..], regs, stack, old(cells)), cells);
      SurvivesIs(AllRoots(saved, globals[..], regs, stack, old(cells)));
      ValidIs();
      ReadyFacts({}, freelist);
      if ok {
        RangeNotEmpty(old(top), top);
        TakeFirst();
      } else {
        NothingFree(m, b, AllRoots(saved, globals[..], regs, stack, old(cells)));
      }
    }

    /** Make sure there is a cell at the head of the free list. */
    method FindCell(saved: seq<int>, stack: seq<int>) returns (ok: bool)
      requires Valid()
      modifies this`heap, this`blocks, this`freelist, this`cellsCollected, this`free, this`cells, this`active, this`top, mem, heaps
      ensures Survives(AllRoots(saved, globals[..], regs, stack, old(cells)))
      ensures Spared(old(mem[..]), old(blocks), AllRoots(saved, globals[..], regs, stack, old(cells)), old(cells), cells)
      ensures ok ==> 0 < freelist < mem.Length && Ready({freelist}, mem[freelist].w1)
      ensures !ok ==> Valid() && Exhausted(old(mem[..]), old(blocks), AllRoots(saved, globals[..], regs, stack, old(cells)))
    {
      hide *;
      if freelist == 0 {
        ok := GcForNewcell(saved, stack);
      } else {
        KeepSurvives(AllRoots(saved, globals[..], regs, stack, cells), saved, stack);
        ValidIs();
        ReadyFacts({}, freelist);
        KeepAll(mem[..], blocks, cells);
        NotEmpty(mem[..], freelist, free);
        TakeFirst();
        SurvivesIs(AllRoots(saved, globals[..], regs, stack, cells));
        SparedIs(old(mem[..]), old(blocks), AllRoots(saved, globals[..], regs, stack, cells), cells, cells);
        ok := true;
      }
    }

    /** Take a cell of the given kind; its two words are left as they were.  0 means the
        storage ran out, which is an error outcome. */
    method NewCell(kind: Kind, saved: seq<int>, stack: seq<int>) returns (z: nat)
      requires Valid() && kind != FreeCell
      modifies this`heap, this`blocks, this`freelist, this`cellsCollected, this`free, this`cells, this`active, this`top, mem, heaps
      ensures Survives(AllRoots(saved, globals[..], regs, stack, old(cells)))
      ensures Spared(old(mem[..]), old(blocks), AllRoots(saved, globals[..], regs, stack, old(cells)), old(cells), cells)
      ensures z != 0 ==> z < mem.Length && Ready({z}, freelist) && mem[z].kind == kind && !mem[z].mark
      ensures z == 0 ==> Valid() && Exhausted(old(mem[..]), old(blocks), AllRoots(saved, globals[..], regs, stack, old(cells)))
    {
      hide *;
      ghost var roots := AllRoots(saved, globals[..], regs, stack, cells);
      var ok := FindCell(saved, stack);
      if !ok {
        return 0;
      }
      SurvivesGives(roots);
      ReadyFacts({freelist}, mem[freelist].w1);
      NotEmpty(mem[..], mem[freelist].w1, free);
      z := freelist;
      ghost var m := mem[..];
      freelist := mem[z].w1;
      mem[z] := mem[z].(mark := false, kind := kind);
      CellWritten(m, mem[..], blocks, cells, free, freelist, z, heap, heapEnd, top);
      KeptTrans(old(mem[..]), old(blocks), m, blocks, mem[..], blocks, cells, cells);
      SurvivesIs(roots);
      ReadyIs({z}, freelist);
    }

    /** Fill in the cell just taken and make it an allocated cell. */
    method Install(z: nat, c: Cell)
      requires Ready({z}, freelist) && z < mem.Length && !OwnsBlock(c) && c.kind != FreeCell
      requires CellOk(c, blocks, cells + {z as int})
      modifies this`cells, mem
      ensures Valid() && cells == old(cells) + {z as int} && z as int !in old(cells)
      ensures 0 < z && mem[..] == old(mem[..])[z := c]
    {
      hide *;
      ReadyFacts({z}, freelist);
      ghost var m := mem[..];
      mem[z] := c;
      PartsHas(cells, z, Elements(free), Interval(heap, heapEnd), top);
      CellInstalled(m, mem[..], blocks, cells, free, freelist, z, heap, heapEnd, top);
      RootsStillMarked(Roots(globals[..], regs), cells, cells + {z as int});
      cells := cells + {z as int};
      ReadyIs({}, freelist);
      ValidIs();
    }

    /** A new cell of a plain kind, filled in.  Its pointers are on the C stack, so a
        collection keeps them. */
    method NewFilled(kind: Kind, w0: int, w1: int, x: nat, y: nat, saved: seq<int>, stack: seq<int>) returns (z: nat)
      requires Valid() && Plain(kind) && (x == 0 || x in cells) && (y == 0 || y in cells)
      requires CELL_BYTES * x in stack && CELL_BYTES * y in stack
      modifies this`heap, this`blocks, this`freelist, this`cellsCollected, this`free, this`cells, this`active, this`top, mem, heaps
      ensures Valid()
      ensures z != 0 ==> z in cells && z < mem.Length && mem[z] == Made(kind, w0, w1, x, y)
      ensures z != 0 ==> mem[z].kind == kind && !mem[z].mark
      ensures z != 0 && kind in {Cons, Closure} ==> mem[z].w0 == x && mem[z].w1 == y
      ensures z != 0 && kind == Symbol ==> mem[z].w0 == w0 && mem[z].w1 == x
      ensures z != 0 && (kind == Flonum || kind.Subr?) ==> mem[z].w0 == w0 && mem[z].w1 == w1
      ensures forall w :: old(Reachable(mem[..], blocks, AllRoots(saved, globals[..], regs, stack, cells), w)) ==>
                w in cells && w != z && CellKept(old(mem[..]), old(blocks), mem[..], blocks, w)
      ensures blocks.Keys <= old(blocks).Keys
      ensures z != 0 ==>
                Spared(old(mem[..]), old(blocks), AllRoots(saved, globals[..], regs, stack, old(cells)), old(cells), cells - {z as int})
      ensures z == 0 ==> Exhausted(old(mem[..]), old(blocks), AllRoots(saved, globals[..], regs, stack, old(cells)))
    {
      hide *;
      ghost var roots, c0 := AllRoots(saved, globals[..], regs, stack, cells), cells;
      PinnedReachable(mem[..], blocks, saved, globals[..], regs, stack, cells, x);
      PinnedReachable(mem[..], blocks, saved, globals[..], regs, stack, cells, y);
      PlainIs(kind);
      z := NewCell(kind, saved, stack);
      SurvivesGives(roots);
      if z != 0 {
        ghost var m := mem[..];
        MadeOk(kind, w0, w1, x, y, blocks, cells + {z as int});
        Install(z, Made(kind, w0, w1, x, y));
        StillKept(old(mem[..]), old(blocks), m, mem[..], blocks, cells - {z as int}, z, roots);
      } else {
        ZeroNotUsed(old(mem[..]), old(blocks), roots);
        StillKept(old(mem[..]), old(blocks), mem[..], mem[..], blocks, cells, 0, roots);
      }
    }

    /** siod_cons */
    method ConsCell(x: nat, y: nat, saved: seq<int>, stack: seq<int>) returns (z: nat)
      requires Valid() && (x == 0 || x in cells) && (y == 0 || y in cells)
      requires CELL_BYTES * x in stack && CELL_BYTES * y in stack
      modifies this`heap, this`blocks, this`freelist, this`cellsCollected, this`free, this`cells, this`active, this`top, mem, heaps
      ensures Valid()
      ensures z != 0 ==> z in cells && z < mem.Length && mem[z] == Cell(false, Cons, x, y)
      ensures forall w :: old(Reachable(mem[..], blocks, AllRoots(saved, globals[..], regs, stack, cells), w)) ==>
                w in cells && w != z && CellKept(old(mem[..]), old(blocks), mem[..], blocks, w)
      ensures blocks.Keys <= old(blocks).Keys
      ensures z != 0 ==>
                Spared(old(mem[..]), old(blocks), AllRoots(saved, globals[..], regs, stack, old(cells)), old(cells), cells - {z as int})
      ensures z == 0 ==> Exhausted(old(mem[..]), old(blocks), AllRoots(saved, globals[..], regs, stack, old(cells)))
    {
      hide *;
      ConsIsPlain(x, y);
      z := NewFilled(Cons, 0, 0, x, y, saved, stack);
    }

    /** siod_cons_array: a cons cell turned into an array of n blanks, zeros or NILs, in a block
        of its own, whose address `id` is what malloc returned. */
    method ArCons(kind: Kind, n: nat, id: int, saved: seq<int>, stack: seq<int>) returns (z: nat)
      requires Valid() && kind in {String, DoubleArray, LongArray, LispArray, ByteArray}
      requires id !in blocks && 0 in stack
      modifies this`heap, this`blocks, this`freelist, this`cellsCollected, this`free, this`cells, this`active, this`top, mem, heaps
      ensures Valid()
      ensures z != 0 ==>
                && z in cells && z < mem.Length && mem[z] == Cell(false, kind, n, id)
                && id in blocks && blocks[id] == Initial(kind, n)
      ensures forall w :: old(Reachable(mem[..], blocks, AllRoots(saved, globals[..], regs, stack, cells), w)) ==>
                w in cells && w != z && CellKept(old(mem[..]), old(blocks), mem[..], blocks, w)
      ensures z != 0 ==>
                Spared(old(mem[..]), old(blocks), AllRoots(saved, globals[..], regs, stack, old(cells)), old(cells), cells - {z as int})
      ensures z == 0 ==> Exhausted(old(mem[..]), old(blocks), AllRoots(saved, globals[..], regs, stack, old(cells)))
    {
      hide *;
      z := ConsCell(0, 0, saved, stack);
      if z != 0 {
        ValidIs();
        ReadyFacts({}, freelist);
        ghost var m, b := mem[..], blocks;
        AllocatedIs(cells, Elements(free), Interval(heap, heapEnd), top, z);
        WhoOwns(mem[z]);
        WhoOwns(Cell(false, kind, n, id));
        blocks := blocks[id := Initial(kind, n)];
        mem[z] := Cell(false, kind, n, id);
        ArrayMade(m, mem[..], b, blocks, cells, free, freelist, z, n, top);
        ArrayLeavesOthers(old(mem[..]), old(blocks), m, b, mem[..], z, id, Initial(kind, n), old(AllRoots(saved, globals[..], regs, stack, cells)), cells);
        ReadyIs({}, freelist);
        ValidIs();
      }
    }

    /** Store words into an allocated cell that owns no block. */
    method SetWords(x: nat, c: Cell)
      requires Valid() && x in cells && x < mem.Length && !OwnsBlock(mem[x])
      requires !OwnsBlock(c) && c.kind != FreeCell && CellOk(c, blocks, cells)
      modifies mem
      ensures Valid() && mem[..] == old(mem[..])[x := c]
    {
      hide *;
      ValidIs();
      ReadyFacts({}, freelist);
      ghost var m := mem[..];
      AllocatedIs(cells, Elements(free), Interval(heap, heapEnd), top, x);
      mem[x] := c;
      PairSet(m, mem[..], blocks, cells, free, freelist, x, top);
      ReadyIs({}, freelist);
      ValidIs();
    }

    /** siod_setcar and siod_setcdr on an allocated cons. */
    method SetPair(x: nat, car: nat, cdr: nat)
      requires Valid() && x in cells && x < mem.Length && mem[x].kind == Cons
      requires (car == 0 || car in cells) && (cdr == 0 || cdr in cells)
      modifies mem
      ensures Valid() && mem[..] == old(mem[..])[x := Cell(false, Cons, car, cdr)]
    {
      hide *;
      WhoOwns(mem[x]);
      PairOk(car, cdr, blocks, cells);
      SetWords(x, Cell(false, Cons, car, cdr));
    }

    /** siod_setvar on the global value of a symbol. */
    method SetValueCell(x: nat, v: nat)
      requires Valid() && x in cells && x < mem.Length && mem[x].kind == Symbol && (v == 0 || v in cells)
      modifies mem
      ensures Valid() && mem[..] == old(mem[..])[x := old(mem[x]).(w1 := v)]
    {
      hide *;
      ValidIs();
      ReadyFacts({}, freelist);
      WhoOwns(mem[x]);
      CellIn(mem[..], blocks, cells, x);
      SymbolOk(mem[x], v, blocks, cells);
      SetWords(x, mem[x].(w1 := v));
    }

    /** siod_aset1 on a lisp array. */
    method SetElement(x: nat, j: nat, v: nat)
      requires Valid() && x in cells && x < mem.Length && mem[x].kind == LispArray && j < mem[x].w0 && (v == 0 || v in cells)
      modifies this`blocks
      ensures Valid() && mem[x].w1 in old(blocks) && |old(blocks)[mem[x].w1]| == mem[x].w0
      ensures blocks == old(blocks)[mem[x].w1 := old(blocks)[mem[x].w1][j := v]]
    {
      hide *;
      ValidIs();
      ReadyFacts({}, freelist);
      AllocatedIs(cells, Elements(free), Interval(heap, heapEnd), top, x);
      CellsOkPoke(mem[..], blocks, cells, x, j, v);
      blocks := blocks[mem[x].w1 := blocks[mem[x].w1][j := v]];
      ReadyIs({}, freelist);
      ValidIs();
    }

    /** Assign a C variable. */
    method SetGlobal(a: nat, v: nat)
      requires Valid() && a < globals.Length && (v == 0 || v in cells)
      modifies globals
      ensures Valid() && globals[..] == old(globals[..])[a := v]
    {
      hide *;
      ValidIs();
      ReadyFacts({}, freelist);
      ghost var g := globals[..];
      globals[a] := v;
      GlobalSet(g, globals[..], regs, a, cells);
      ReadyIs({}, freelist);
      ValidIs();
    }

    /** siod_gc_protect_n: the collector is to treat these C variables as roots. */
    method GcProtectN(location: nat, n: nat)
      requires Valid() && location + n <= globals.Length
      requires forall a :: location <= a < location + n ==> globals[a] == 0 || globals[a] in cells
      modifies this`regs
      ensures Valid() && regs == [Register(location, n)] + old(regs)
      ensures Locations(regs) == Span(Register(location, n)) + old(Locations(regs))
    {
      ValidIs();
      ReadyFacts({}, freelist);
      RegisterMore(globals[..], regs, Register(location, n));
      hide *;
      MoreRoots(globals[..], regs, Register(location, n), cells);
      regs := [Register(location, n)] + regs;
      ReadyIs({}, freelist);
      ValidIs();
    }

    /** siod_freelist_length: the cells that can still be handed out without a collection. */
    method FreelistLength() returns (n: nat)
      requires Valid()
      ensures n == |free| + (heapEnd - heap)
    {
      ReadyFacts({}, freelist);
      n := 0;
      var l := freelist;
      while l != 0
        invariant n <= |free| && FreeList(mem[..], l, free[n..])
        decreases |free| - n
      {
        assert free[n..][1..] == free[n + 1..];
        l := mem[l].w1;
        n := n + 1;
      }
      n := n + (heapEnd - heap);
    }

    /** siod_nactive_heaps. */
    method NactiveHeaps() returns (m: nat)
      requires Valid()
      ensures m == active
    {
      ReadyFacts({}, freelist);
      m := 0;
      while m < nheaps && heaps[m] != 0
        invariant m <= active
      {
        m := m + 1;
      }
    }

    /** Free, unborn and allocated cells account for every cell of the active heaps. */
    lemma Accounting()
      requires Valid()
      ensures |cells| + |free| + (heapEnd - heap) == active * heapSize
    {
      hide *;
      ValidIs();
      ReadyFacts({}, freelist);
      FreeListSize(mem[..], freelist, free);
      PartsSize(cells, Elements(free), heap, heapEnd, top);
      TopIs();
    }

    lemma TopIs()
      requires Geometry()
      ensures top - 1 == active * heapSize
    {
    }

    // ----- whole runs -----

    ghost function Now(): (s: Snapshot)
      reads this, mem, globals
      ensures s.mem == mem[..] && s.blocks == blocks && s.globals == globals[..] && s.regs == regs && s.cells == cells
    {
      Snapshot(mem[..], blocks, globals[..], regs, cells)
    }

    /** The pointer in the i-th protected location. */
    method Fetch(i: nat) returns (x: nat)
      requires Valid() && i < |Locations(regs)|
      ensures x == At(Now(), i) && (x == 0 || x in cells)
      ensures x != 0 ==> x < mem.Length
    {
      ReadyFacts({}, freelist);
      var a := Locations(regs)[i];
      assert Roots(globals[..], regs)[i] == globals[a];
      AllocatedArePositive(cells, Elements(free), Interval(heap, heapEnd), top);
      x := globals[a];
      if x != 0 {
        InMemory(x);
      }
    }

    /** Store a pointer in the i-th protected location. */
    method Store(i: nat, x: nat)
      requires Valid() && i < |Locations(regs)| && (x == 0 || x in cells)
      modifies globals
      ensures Valid() && Locations(regs)[i] < globals.Length
      ensures globals[..] == old(globals[..])[Locations(regs)[i] := x]
    {
      ReadyFacts({}, freelist);
      SetGlobal(Locations(regs)[i], x);
    }

    lemma ExhaustedIsFull(s: Snapshot, roots: seq<int>)
      requires Exhausted(s.mem, s.blocks, roots) && |s.mem| == mem.Length
      ensures Full(s, roots) && cells == Interval(1, |s.mem|)
    {
      hide Reached;
    }

    lemma InCells(z: int)
      requires z in cells
      ensures z !in cells - {z} && cells == (cells - {z}) + {z}
    {
    }

    /** A new cell with the pointers of two locations in it; it is not stored yet. */
    method MakeFrom(step: Timed) returns (z: nat)
      requires Valid() && step.op.Make? && Operands(step.op, Now())
      modifies this, mem, heaps
      ensures Valid() && regs == old(regs) && LiveKept(old(Now()), Now(), StepRoots(step, old(Now())))
      ensures z != 0 ==> z in cells && 0 < z < mem.Length
      ensures z != 0 ==> IsMade(mem[z], step.op, old(Now()))
      ensures z != 0 ==> !Reachable(old(mem[..]), old(blocks), StepRoots(step, old(Now())), z)
      ensures z != 0 ==> Spared(old(mem[..]), old(blocks), StepRoots(step, old(Now())), old(cells), cells - {z as int})
      ensures z == 0 ==> Exhausted(old(mem[..]), old(blocks), StepRoots(step, old(Now())))
    {
      hide *;
      ghost var s := Now();
      var Make(_, kind, w0, w1, b, c) := step.op;
      OperandsOfMake(step.op, s);
      var x := Fetch(b);
      var y := Fetch(c);
      var stack := [CELL_BYTES * x, CELL_BYTES * y] + step.noise;
      StepRootsIs(step, s, stack);
      z := NewFilled(kind, w0, w1, x, y, step.saved, stack);
      if z != 0 {
        MadeIs(mem[z], step.op, s, x, y);
      }
      LiveFrom(s, Now(), StepRoots(step, s));
    }

    /** Make a cell and store it. */
    method DoMake(step: Timed)
      requires Valid() && step.op.Make?
      modifies this, mem, heaps, globals
      ensures Valid() && Effect(step, old(Now()), Now())
    {
      hide *;
      ghost var s := Now();
      var Make(a, kind, w0, w1, b, c) := step.op;
      var n := |Locations(regs)|;
      OperandsOfMake(step.op, s);
      if !(a < n && b < n && c < n && Plain(kind)) {
        EffectOfNothing(step, s);
        return;
      }
      var z := MakeFrom(step);
      if z == 0 {
        ExhaustedIsFull(s, StepRoots(step, s));
        EffectOfFailing(step, s, Now());
      } else {
        ghost var t := Now();
        Store(a, z);
        InCells(z);
        LiveIs(s, t, Now(), StepRoots(step, s));
        MakeIs(step.op, s, Now(), StepRoots(step, s), cells - {z as int}, z);
        EffectOfMaking(step, s, Now(), z);
      }
    }

    method DoMakeArray(step: Timed)
      requires Valid() && step.op.MakeArray?
      modifies this, mem, heaps, globals
      ensures Valid() && Effect(step, old(Now()), Now())
    {
      hide *;
      ghost var s := Now();
      var MakeArray(a, kind, size, id) := step.op;
      OperandsOfArray(step.op, s);
      if !(a < |Locations(regs)| && id !in blocks && kind in {String, DoubleArray, LongArray, LispArray, ByteArray}) {
        EffectOfNothing(step, s);
        return;
      }
      var stack := [0] + step.noise;
      StepRootsIs(step, s, stack);
      var z := ArCons(kind, size, id, step.saved, stack);
      ghost var t := Now();
      LiveFrom(s, t, StepRoots(step, s));
      if z == 0 {
        ExhaustedIsFull(s, StepRoots(step, s));
        EffectOfFailing(step, s, t);
      } else {
        Store(a, z);
        InCells(z);
        LiveIs(s, t, Now(), StepRoots(step, s));
        ArrayIs(step.op, s, Now(), StepRoots(step, s), cells - {z as int}, z);
        EffectOfMaking(step, s, Now(), z);
      }
    }

    method DoCollect(step: Timed)
      requires Valid() && step.op.Collect?
      modifies this, mem, heaps, globals
      ensures Valid() && Effect(step, old(Now()), Now())
    {
      hide *;
      ghost var s := Now();
      StepRootsIs(step, s, step.noise);
      GcMarkAndSweep(step.saved, step.noise);
      ReachedKept(s, Now(), StepRoots(step, s));
      SameOwners(s.mem, s.blocks, mem[..], blocks, cells);
      ValidIs();
      ReadyFacts({}, freelist);
      BlocksOwned(mem[..], blocks, cells);
      CollectIs(step, s, Now());
    }

    /** Change a cell that is there. */
    method DoSet(step: Timed)
      requires Valid() && (step.op.SetCons? || step.op.SetValue? || step.op.SetElement?)
      modifies this, mem, heaps, globals
      ensures Valid() && Effect(step, old(Now()), Now())
    {
      hide *;
      ghost var s := Now();
      var op := step.op;
      var n := |Locations(regs)|;
      var x := 0;
      if op.a < n {
        x := Fetch(op.a);
      } else {
        NowhereIs(s, op.a);
      }
      match op {
        case SetCons(a, b, c) =>
          if x != 0 && b < n && c < n && mem[x].kind == Cons {
            var car := Fetch(b);
            var cdr := Fetch(c);
            SetPair(x, car, cdr);
          }
          SetConsIs(a, b, c, s, Now(), x);
        case SetValue(a, b) =>
          if x != 0 && b < n && mem[x].kind == Symbol {
            var v := Fetch(b);
            SetValueCell(x, v);
          }
          SetValueIs(a, b, s, Now(), x);
        case SetElement(a, j, b) =>
          if x != 0 && b < n && mem[x].kind == LispArray && j < mem[x].w0 {
            var v := Fetch(b);
            SetElement(x, j, v);
          }
          SetElementIs(a, j, b, s, Now(), x);
      }
      EffectOfUpdate(step, s, Now());
    }

    /** One step of a program. */
    method Step(step: Timed)
      requires Valid()
      modifies this, mem, heaps, globals
      ensures Valid() && Effect(step, old(Now()), Now())
    {
      hide *;
      ghost var s := Now();
      match step.op
      case Make(_, _, _, _, _, _) => DoMake(step);
      case MakeArray(_, _, _, _) => DoMakeArray(step);
      case SetCons(_, _, _) => DoSet(step);
      case SetValue(_, _) => DoSet(step);
      case SetElement(_, _, _) => DoSet(step);
      case Copy(a, b) =>
        if a < |Locations(regs)| && b < |Locations(regs)| {
          var x := Fetch(b);
          Store(a, x);
        }
        CopyIs(a, b, s, Now());
        EffectOfUpdate(step, s, Now());
      case Protect(location, n) =>
        if location + n <= globals.Length {
          var ok := AllNilHere(location, n);
          if ok {
            GcProtectN(location, n);
          }
        }
        ProtectIs(step, s, Now());
      case Collect => DoCollect(step);
    }

    method AllNilHere(location: nat, n: nat) returns (ok: bool)
      requires location + n <= globals.Length
      ensures ok <==> AllNil(globals[..], location, n)
      ensures ok ==> forall a :: location <= a < location + n ==> globals[a] == 0
    {
      ok := true;
      for a := location to location + n
        invariant ok <==> forall i :: location <= i < a ==> globals[i] == 0
      {
        ok := ok && globals[a] == 0;
      }
      assert ok ==> forall i :: location <= i < location + n ==> globals[..][i] == 0;
      assert AllNil(globals[..], location, n) ==> forall i :: location <= i < location + n ==> globals[i] == globals[..][i];
    }

    lemma InMemory(x: nat)
      requires Valid() && x in cells
      ensures 0 < x < mem.Length
    {
      ReadyFacts({}, freelist);
      AllocatedIs(cells, Elements(free), Interval(heap, heapEnd), top, x);
    }

    lemma BlocksAreOwned()
      requires Valid()
      ensures Owned(Now())
    {
      hide *;
      ValidIs();
      ReadyFacts({}, freelist);
      BlocksOwned(mem[..], blocks, cells);
      OwnedIs(Now());
    }

    /** Over any run the heap stays in order, the free, unborn and allocated cells account
        for all the cells of the active heaps, every block has its one owner at every step,
        and each step does what it should: a collection or an allocation leaves whatever the
        roots lead to as it was, a collection leaves nothing else, an allocation fails only
        when the roots lead to every cell, and an update changes what it is to change. */
    method Run(ops: seq<Timed>) returns (ghost log: seq<Snapshot>)
      requires Valid()
      modifies this, mem, heaps, globals
      ensures Valid()
      ensures |cells| + |free| + (heapEnd - heap) == active * heapSize
      ensures |log| == |ops| + 1 && log[0] == old(Now()) && log[|ops|] == Now()
      ensures forall i :: 0 <= i < |ops| ==> Effect(ops[i], log[i], log[i + 1])
      ensures forall i :: 0 <= i <= |ops| ==> Owned(log[i])
    {
      hide *;
      log := [Now()];
      BlocksAreOwned();
      for i := 0 to |ops|
        invariant Valid() && |log| == i + 1 && log[0] == old(Now()) && log[i] == Now()
        invariant forall j :: 0 <= j < i ==> Effect(ops[j], log[j], log[j + 1])
        invariant forall j :: 0 <= j <= i ==> Owned(log[j])
      {
        ghost var before := log;
        Step(ops[i]);
        log := log + [Now()];
        BlocksAreOwned();
        forall j | 0 <= j < i + 1
          ensures Effect(ops[j], log[j], log[j + 1])
        {
          if j < i {
            assert log[j] == before[j] && log[j + 1] == before[j + 1];
          }
        }
      }
      Accounting();
    }
  }
}
