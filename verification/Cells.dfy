/** The storage layout both collectors work on (src/ulsiod.h:11-56).

    Memory is a sequence of cells and a pointer is an index into it, with index 0
    standing for NIL.  The union inside a cell is kept as the two raw words it is
    in C; the cell's kind says which of them are pointers.  Array cells keep their
    elements out of line, in a malloc'd block named by `w1`. */
module Cells {

  datatype Kind =
    | Cons | Flonum | Symbol | Subr(code: nat) | Closure
    | FreeCell
    | String | DoubleArray | LongArray | LispArray | ByteArray

  datatype Cell = Cell(mark: bool, kind: Kind, w0: int, w1: int)

  /** Live malloc'd blocks: pointers for a lisp array, raw data otherwise. */
  type Blocks = map<int, seq<int>>

  predicate OwnsBlock(c: Cell) {
    c.kind in {String, DoubleArray, LongArray, LispArray, ByteArray}
  }

  /** The pointers a cell holds, in a fixed order. */
  function Children(c: Cell, b: Blocks): seq<int> {
    match c.kind
    case Cons | Closure => [c.w0, c.w1]
    case Symbol => [c.w1]
    case LispArray => if c.w1 in b then b[c.w1] else []
    case _ => []
  }

  predicate ChildrenIn(c: Cell, b: Blocks, S: set<int>) {
    forall i :: 0 <= i < |Children(c, b)| ==> Children(c, b)[i] == 0 || Children(c, b)[i] in S
  }

  /** Follow `path`, a list of child positions, from the pointer `x`. */
  function Walk(m: seq<Cell>, b: Blocks, x: int, path: seq<nat>): (r: int)
    decreases |path|
  {
    if path == [] then x
    else if 0 < x < |m| && path[0] < |Children(m[x], b)| then
      Walk(m, b, Children(m[x], b)[path[0]], path[1..])
    else 0
  }

  ghost predicate Reachable(m: seq<Cell>, b: Blocks, roots: seq<int>, x: int) {
    x != 0 && exists k, path :: 0 <= k < |roots| && Walk(m, b, roots[k], path) == x
  }

  /** S is the set of the cells that the roots lead to. */
  ghost predicate Reached(m: seq<Cell>, b: Blocks, roots: seq<int>, S: set<int>) {
    forall x :: x in S <==> Reachable(m, b, roots, x)
  }

  /** A set that holds the roots and is closed under following pointers. */
  ghost predicate Closed(m: seq<Cell>, b: Blocks, roots: seq<int>, S: set<int>) {
    && (forall k :: 0 <= k < |roots| ==> roots[k] == 0 || roots[k] in S)
    && (forall x :: x in S ==> 0 < x < |m| && ChildrenIn(m[x], b, S))
  }

  lemma {:induction false} WalkExtend(m: seq<Cell>, b: Blocks, x: int, path: seq<nat>, i: nat)
    requires var y := Walk(m, b, x, path); 0 < y < |m| && i < |Children(m[y], b)|
    ensures Walk(m, b, x, path + [i]) == Children(m[Walk(m, b, x, path)], b)[i]
    decreases |path|
  {
    if path == [] {
      assert ([] + [i])[1..] == [];
    } else {
      assert (path + [i])[1..] == path[1..] + [i];
      WalkExtend(m, b, Children(m[x], b)[path[0]], path[1..], i);
    }
  }

  lemma ReachableChild(m: seq<Cell>, b: Blocks, roots: seq<int>, x: int, i: nat)
    requires 0 < x < |m| && Reachable(m, b, roots, x)
    requires i < |Children(m[x], b)| && Children(m[x], b)[i] != 0
    ensures Reachable(m, b, roots, Children(m[x], b)[i])
  {
    var k, path :| 0 <= k < |roots| && Walk(m, b, roots[k], path) == x;
    WalkExtend(m, b, roots[k], path, i);
  }

  lemma ReachableRoot(m: seq<Cell>, b: Blocks, roots: seq<int>, k: nat)
    requires k < |roots| && roots[k] != 0
    ensures Reachable(m, b, roots, roots[k])
  {
    assert Walk(m, b, roots[k], []) == roots[k];
  }

  lemma {:induction false} WalkStaysIn(m: seq<Cell>, b: Blocks, S: set<int>, x: int, path: seq<nat>)
    requires forall y :: y in S ==> 0 < y < |m| && ChildrenIn(m[y], b, S)
    requires x == 0 || x in S
    ensures Walk(m, b, x, path) == 0 || Walk(m, b, x, path) in S
    decreases |path|
  {
    if path != [] && 0 < x < |m| && path[0] < |Children(m[x], b)| {
      WalkStaysIn(m, b, S, Children(m[x], b)[path[0]], path[1..]);
    }
  }

  /** A closed set of reachable cells is exactly the set of reachable cells. */
  lemma ClosedIsReachable(m: seq<Cell>, b: Blocks, roots: seq<int>, S: set<int>)
    requires Closed(m, b, roots, S)
    requires forall x :: x in S ==> Reachable(m, b, roots, x)
    ensures forall x :: x in S <==> Reachable(m, b, roots, x)
  {
    forall x | Reachable(m, b, roots, x)
      ensures x in S
    {
      var k, path :| 0 <= k < |roots| && Walk(m, b, roots[k], path) == x;
      WalkStaysIn(m, b, S, roots[k], path);
    }
  }

  /** The blocks that the cells in S own. */
  function OwnedBlocks(m: seq<Cell>, S: set<int>): set<int> {
    set x | x in S && 0 < x < |m| && OwnsBlock(m[x]) :: m[x].w1
  }

  lemma OwnedOneMore(m: seq<Cell>, S: set<int>, x: nat)
    requires 0 < x < |m|
    ensures OwnedBlocks(m, S + {x}) == OwnedBlocks(m, S) + if OwnsBlock(m[x]) then {m[x].w1} else {}
  {
    var l, r := OwnedBlocks(m, S + {x}), OwnedBlocks(m, S) + if OwnsBlock(m[x]) then {m[x].w1} else {};
    forall id | id in r
      ensures id in l
    {
      if OwnsBlock(m[x]) && id == m[x].w1 {
        assert x in S + {x};
      } else {
        var y :| y in S && 0 < y < |m| && OwnsBlock(m[y]) && m[y].w1 == id;
        assert y in S + {x};
      }
    }
  }

  /** What holds of the allocated cells S between collections: marks are clear,
      pointers stay inside S, and every block has exactly one owner. */
  ghost predicate CellsOk(m: seq<Cell>, b: Blocks, S: set<int>) {
    EachOk(m, b, S) && OwnersApart(m, S) && b.Keys == OwnedBlocks(m, S)
  }

  ghost predicate EachOk(m: seq<Cell>, b: Blocks, S: set<int>) {
    forall x :: x in S ==> 0 < x < |m| && CellOk(m[x], b, S)
  }

  ghost predicate OwnersApart(m: seq<Cell>, S: set<int>) {
    forall x, y :: x in S && y in S && x != y && 0 < x < |m| && 0 < y < |m| && OwnsBlock(m[x]) && OwnsBlock(m[y]) ==>
      m[x].w1 != m[y].w1
  }

  ghost predicate CellOk(c: Cell, b: Blocks, S: set<int>) {
    !c.mark && ChildrenIn(c, b, S) && (c.kind == LispArray ==> c.w1 in b && c.w0 == |b[c.w1]|)
  }

  /** The cell x, and its block, are the same before and after. */
  ghost predicate CellKept(m: seq<Cell>, b: Blocks, m': seq<Cell>, b': Blocks, x: int) {
    && 0 < x < |m| == |m'| && m'[x] == m[x]
    && (OwnsBlock(m[x]) ==> m[x].w1 in b && m[x].w1 in b' && b'[m[x].w1] == b[m[x].w1])
  }

  lemma CellsOkFrame(m: seq<Cell>, m0: seq<Cell>, b: Blocks, cells: set<int>)
    requires CellsOk(m, b, cells) && |m| == |m0|
    requires forall x :: x in cells && 0 < x < |m| ==> m0[x] == m[x]
    ensures CellsOk(m0, b, cells)
  {
    hide CellOk, OwnsBlock;
    assert OwnedBlocks(m0, cells) == OwnedBlocks(m, cells);
  }

  lemma CellsOkMore(m: seq<Cell>, b0: Blocks, b: Blocks, cells: set<int>, z: nat)
    requires CellsOk(m, b0, cells) && 0 < z < |m| && z as int !in cells
    requires forall id :: id in b0 ==> id in b && b[id] == b0[id]
    requires b.Keys == b0.Keys + if OwnsBlock(m[z]) then {m[z].w1} else {}
    requires OwnsBlock(m[z]) ==> m[z].w1 !in b0
    requires CellOk(m[z], b, cells + {z as int})
    ensures CellsOk(m, b, cells + {z as int})
  {
    OwnedOneMore(m, cells, z);
    assert OwnersApart(m, cells + {z as int}) by {
      OwnersIn(m, b0, cells);
      hide EachOk, OwnedBlocks;
    }
    hide OwnersApart, OwnedBlocks;
    forall x | x in cells
      ensures 0 < x < |m| && CellOk(m[x], b, cells + {z as int})
    {
      CellOkMore(m[x], b0, b, cells, z);
    }
  }

  lemma OwnersIn(m: seq<Cell>, b: Blocks, cells: set<int>)
    requires CellsOk(m, b, cells)
    ensures forall x :: x in cells && 0 < x < |m| && OwnsBlock(m[x]) ==> m[x].w1 in b
  {
    hide EachOk, OwnersApart;
    forall x | x in cells && 0 < x < |m| && OwnsBlock(m[x])
      ensures m[x].w1 in b
    {
      assert m[x].w1 in OwnedBlocks(m, cells);
    }
  }

  lemma CellOkMore(c: Cell, b0: Blocks, b: Blocks, cells: set<int>, z: nat)
    requires CellOk(c, b0, cells)
    requires forall id :: id in b0 ==> id in b && b[id] == b0[id]
    ensures CellOk(c, b, cells + {z as int})
  {
    assert Children(c, b) == Children(c, b0);
  }

  lemma CellOkSame(c: Cell, b0: Blocks, b: Blocks, S: set<int>)
    requires CellOk(c, b0, S)
    requires forall id :: id in b0 ==> id in b && b[id] == b0[id]
    ensures CellOk(c, b, S)
  {
    assert Children(c, b) == Children(c, b0);
  }

  /** A new cell of a kind without a block: its pointers are `x` and `y`, a symbol's value
      is `x`, and its other words are what they are. */
  function Made(kind: Kind, w0: int, w1: int, x: int, y: int): (c: Cell)
    ensures c.kind == kind && !c.mark
    ensures kind in {Cons, Closure} ==> c.w0 == x && c.w1 == y
    ensures kind == Symbol ==> c.w0 == w0 && c.w1 == x
    ensures kind == Flonum || kind.Subr? ==> c.w0 == w0 && c.w1 == w1
  {
    match kind
    case Cons | Closure => Cell(false, kind, x, y)
    case Symbol => Cell(false, kind, w0, x)
    case _ => Cell(false, kind, w0, w1)
  }

  /** The kinds of cells that own no block. */
  predicate Plain(kind: Kind) {
    kind != FreeCell && !OwnsBlock(Cell(false, kind, 0, 0))
  }

  lemma MadeOk(kind: Kind, w0: int, w1: int, x: int, y: int, b: Blocks, S: set<int>)
    requires Plain(kind) && (x == 0 || x in S) && (y == 0 || y in S)
    ensures var c := Made(kind, w0, w1, x, y); CellOk(c, b, S) && !OwnsBlock(c) && c.kind == kind != FreeCell
  {
  }

  /** Storing a pointer in an element of a lisp array. */
  lemma CellsOkPoke(m: seq<Cell>, b: Blocks, cells: set<int>, x: nat, j: nat, v: int)
    requires CellsOk(m, b, cells) && x as int in cells && 0 < x < |m| && m[x].kind == LispArray
    requires v == 0 || v in cells
    ensures m[x].w1 in b && m[x].w0 == |b[m[x].w1]|
    ensures j < |b[m[x].w1]| ==> CellsOk(m, b[m[x].w1 := b[m[x].w1][j := v]], cells)
  {
    assert CellOk(m[x], b, cells);
    var id := m[x].w1;
    if j < |b[id]| {
      var b2 := b[id := b[id][j := v]];
      assert b2.Keys == b.Keys;
      hide OwnersApart, OwnedBlocks;
      forall y | y in cells
        ensures 0 < y < |m| && CellOk(m[y], b2, cells)
      {
        if y == x {
          PokedOk(m[x], b, cells, j, v);
        } else {
          PokeElsewhere(m, b, cells, x, y, b2);
        }
      }
    }
  }

  lemma PokedOk(c: Cell, b: Blocks, S: set<int>, j: nat, v: int)
    requires CellOk(c, b, S) && c.kind == LispArray && j < |b[c.w1]| && (v == 0 || v in S)
    ensures CellOk(c, b[c.w1 := b[c.w1][j := v]], S)
  {
    var s := b[c.w1];
    var t := s[j := v];
    forall i | 0 <= i < |t|
      ensures t[i] == 0 || t[i] in S
    {
      assert Children(c, b)[i] == s[i];
    }
  }

  lemma PokeElsewhere(m: seq<Cell>, b: Blocks, cells: set<int>, x: int, y: int, b2: Blocks)
    requires CellsOk(m, b, cells) && x in cells && y in cells && y != x && 0 < x < |m| && m[x].kind == LispArray
    requires forall id :: id in b && id != m[x].w1 ==> id in b2 && b2[id] == b[id]
    ensures 0 < y < |m| && CellOk(m[y], b2, cells)
  {
    assert CellOk(m[y], b, cells);
    if m[y].kind == LispArray {
      ApartAt(m, cells, x, y);
    }
    assert Children(m[y], b2) == Children(m[y], b);
  }

  lemma PairOk(x: nat, y: nat, b: Blocks, S: set<int>)
    requires (x == 0 || x in S) && (y == 0 || y in S)
    ensures CellOk(Cell(false, Cons, x, y), b, S) && !OwnsBlock(Cell(false, Cons, x, y))
  {
  }

  lemma WhoOwns(c: Cell)
    ensures OwnsBlock(c) <==> c.kind in {String, DoubleArray, LongArray, LispArray, ByteArray}
  {
  }

  /** What a new block of `n` elements holds: blanks in a string, zeros or NILs elsewhere. */
  function Initial(kind: Kind, n: nat): (s: seq<int>)
    ensures |s| == n && forall i :: 0 <= i < n ==> s[i] == if kind == String then 32 else 0
  {
    seq(n, _ => if kind == String then 32 else 0)
  }

  lemma InitialOk(c: Cell, b: Blocks, S: set<int>)
    requires !c.mark && c.w0 >= 0 && c.w1 in b && b[c.w1] == Initial(c.kind, c.w0) && OwnsBlock(c)
    ensures CellOk(c, b, S)
  {
  }

  lemma ApartAt(m: seq<Cell>, S: set<int>, x: int, y: int)
    requires OwnersApart(m, S) && x in S && y in S && x != y && 0 < x < |m| && 0 < y < |m|
    requires OwnsBlock(m[x]) && OwnsBlock(m[y])
    ensures m[x].w1 != m[y].w1
  {
  }

  /** Turning the cell z, which owns no block, into an array with a new block. */
  lemma CellsOkArray(m: seq<Cell>, m2: seq<Cell>, b: Blocks, b2: Blocks, cells: set<int>, z: nat, n: nat)
    requires CellsOk(m, b, cells) && z as int in cells && 0 < z < |m|
    requires |m2| == |m| && (forall x :: x in cells && 0 < x < |m| && x != z ==> m2[x] == m[x])
    requires !OwnsBlock(m[z]) && OwnsBlock(m2[z]) && !m2[z].mark && m2[z].w0 == n && m2[z].w1 !in b
    requires b2 == b[m2[z].w1 := Initial(m2[z].kind, n)]
    ensures CellsOk(m2, b2, cells)
  {
    OwnersIn(m, b, cells);
    assert OwnersApart(m2, cells) by {
      hide EachOk, OwnedBlocks;
    }
    assert OwnedBlocks(m2, cells) == OwnedBlocks(m, cells) + {m2[z].w1} by {
      hide EachOk, OwnersApart;
      assert m2[z].w1 in OwnedBlocks(m2, cells);
    }
    InitialOk(m2[z], b2, cells);
    hide OwnersApart, OwnedBlocks, CellOk;
    forall x | x in cells
      ensures 0 < x < |m2| && CellOk(m2[x], b2, cells)
    {
      if x != z {
        CellOkSame(m[x], b, b2, cells);
      }
    }
  }

  /** Overwriting the cell x, which owns no block, with another that owns none. */
  lemma CellsOkSet(m: seq<Cell>, m2: seq<Cell>, b: Blocks, cells: set<int>, x: nat)
    requires CellsOk(m, b, cells) && x as int in cells && 0 < x < |m|
    requires |m2| == |m| && (forall y :: y in cells && 0 < y < |m| && y != x ==> m2[y] == m[y])
    requires !OwnsBlock(m[x]) && !OwnsBlock(m2[x]) && CellOk(m2[x], b, cells)
    ensures CellsOk(m2, b, cells)
  {
    hide CellOk;
    assert OwnedBlocks(m2, cells) == OwnedBlocks(m, cells);
  }

  /** The integers from lo up to but not including hi. */
  function Interval(lo: int, hi: int): (s: set<int>)
    ensures forall x :: x in s <==> lo <= x < hi
    ensures |s| == if lo < hi then hi - lo else 0
    decreases hi - lo
  {
    if lo < hi then Interval(lo, hi - 1) + {hi - 1} else {}
  }

  lemma {:induction false} SubsetSize<T>(s: set<T>, t: set<T>)
    requires s <= t
    ensures |s| <= |t|
  {
    if s != {} {
      var x :| x in s;
      SubsetSize(s - {x}, t - {x});
    }
  }
}
