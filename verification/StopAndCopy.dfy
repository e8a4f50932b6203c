/** The stop-and-copy collector (src/slib.c:1005-1013, 1152-1266; array hooks
    src/sliba.c:56-99).

    A collection copies every cell reachable from the protected registers into the
    other half of memory.  A copied cell's mark is set and its first word holds the
    address of the copy.  The specification is a ghost record of the copying so far:
    `order` lists the old addresses in the order they were copied and `fwd` is its
    inverse, the forwarding map. */
module StopAndCopy {
  import opened Cells
  import opened Programs
  import opened Registers

  datatype Copying = Copying(
    m0: seq<Cell>, b0: Blocks, roots: seq<int>,   // memory, blocks and roots at the start
    lo: nat, hi: nat, ns: nat, size: nat,         // old cells in use; new space and its size
    order: seq<int>, fwd: map<int, int>)

  function Move(fwd: map<int, int>, r: int): int {
    if r in fwd then fwd[r] else 0
  }

  function MoveAll(fwd: map<int, int>, s: seq<int>): (r: seq<int>)
    ensures |r| == |s|
  {
    seq(|s|, i requires 0 <= i < |s| => Move(fwd, s[i]))
  }

  /** A cell with its own pointer words forwarded.  A lisp array keeps its block. */
  function MovedCell(fwd: map<int, int>, c: Cell): Cell {
    match c.kind
    case Cons | Closure => c.(w0 := Move(fwd, c.w0), w1 := Move(fwd, c.w1))
    case Symbol => c.(w1 := Move(fwd, c.w1))
    case _ => c
  }

  /** What holds of the cells in use between collections. */
  ghost predicate SpaceOk(m: seq<Cell>, b: Blocks, lo: nat, hi: nat) {
    0 < lo <= hi <= |m| && CellsOk(m, b, Interval(lo, hi))
  }

  ghost predicate RootsIn(roots: seq<int>, lo: nat, hi: nat) {
    forall k :: 0 <= k < |roots| ==> roots[k] == 0 || lo <= roots[k] < hi
  }

  ghost predicate Start(c: Copying) {
    && SpaceOk(c.m0, c.b0, c.lo, c.hi)
    && 0 < c.ns && c.ns + c.size <= |c.m0|
    && (c.hi <= c.ns || c.ns + c.size <= c.lo)
    && c.hi - c.lo <= c.size
    && RootsIn(c.roots, c.lo, c.hi)
  }

  ghost predicate Tracks(c: Copying) {
    && (forall i :: 0 <= i < |c.order| ==> c.order[i] in c.fwd && c.fwd[c.order[i]] == c.ns + i)
    && (forall x :: x in c.fwd ==>
          && c.lo <= x < c.hi
          && 0 <= c.fwd[x] - c.ns < |c.order| && c.order[c.fwd[x] - c.ns] == x
          && Reachable(c.m0, c.b0, c.roots, x))
  }

  /** Old cells: the copied ones forward, the others are untouched. */
  ghost predicate OldSide(c: Copying, m: seq<Cell>) {
    && |m| == |c.m0|
    && forall x :: c.lo <= x < c.hi && x < |m| ==>
         if x in c.fwd then m[x].mark && m[x].w0 == c.fwd[x] else m[x] == c.m0[x]
  }

  /** Copies below `scan` are forwarded, copies from `raw` on are still verbatim. */
  ghost predicate NewSide(c: Copying, m: seq<Cell>, scan: nat, raw: nat) {
    && scan <= raw && scan <= |c.order|
    && c.ns + |c.order| <= |m| == |c.m0|
    && (forall i :: 0 <= i < |c.order| ==> 0 < c.order[i] < |c.m0|)
    && (forall i :: 0 <= i < scan ==> Scanned(c, m, i))
    && (forall i :: raw <= i < |c.order| ==> m[c.ns + i] == c.m0[c.order[i]])
  }

  ghost predicate Scanned(c: Copying, m: seq<Cell>, i: nat)
    requires i < |c.order| && 0 < c.order[i] < |c.m0| && c.ns + i < |m|
  {
    && ChildrenIn(c.m0[c.order[i]], c.b0, c.fwd.Keys)
    && m[c.ns + i] == MovedCell(c.fwd, c.m0[c.order[i]])
  }

  /** The block of old cell x: forwarded once x's copy has been scanned, else as it was. */
  ghost predicate BlockAt(c: Copying, b: Blocks, scan: nat, raw: nat, x: int)
    requires c.lo <= x < c.hi && x < |c.m0| && c.m0[x].w1 in b && c.m0[x].w1 in c.b0
  {
    var id := c.m0[x].w1;
    if c.m0[x].kind == LispArray && x in c.fwd && c.fwd[x] < c.ns + scan then
      b[id] == MoveAll(c.fwd, c.b0[id])
    else
      b[id] == c.b0[id] || (c.m0[x].kind == LispArray && x in c.fwd && c.fwd[x] < c.ns + raw)
  }

  ghost predicate BlockSide(c: Copying, b: Blocks, scan: nat, raw: nat) {
    && b.Keys == c.b0.Keys
    && forall x :: c.lo <= x < c.hi && x < |c.m0| && OwnsBlock(c.m0[x]) && c.m0[x].w1 in b ==>
         BlockAt(c, b, scan, raw, x)
  }

  ghost predicate Inv(c: Copying, m: seq<Cell>, b: Blocks, scan: nat, raw: nat) {
    Start(c) && Tracks(c) && OldSide(c, m) && NewSide(c, m, scan, raw) && BlockSide(c, b, scan, raw)
  }

  /** `d` continues `c`: same start, and everything copied by `c` stays where it is. */
  ghost predicate Continues(c: Copying, d: Copying) {
    && d == c.(order := d.order, fwd := d.fwd)
    && |c.order| <= |d.order| && (forall i :: 0 <= i < |c.order| ==> d.order[i] == c.order[i])
    && (forall x :: x in c.fwd ==> x in d.fwd && d.fwd[x] == c.fwd[x])
    && (forall x :: x in d.fwd && x !in c.fwd ==> c.ns + |c.order| <= d.fwd[x])
  }

  lemma ContinuesTrans(c: Copying, d: Copying, e: Copying)
    requires (c == d || Continues(c, d)) && (d == e || Continues(d, e))
    ensures Continues(c, e)
    ensures e == c.(order := e.order, fwd := e.fwd) && |c.order| <= |d.order| <= |e.order|
    ensures forall i :: 0 <= i < |c.order| ==> e.order[i] == c.order[i]
  {
  }

  function Copied(c: Copying, x: int): Copying {
    c.(order := c.order + [x], fwd := c.fwd[x := c.ns + |c.order|])
  }

  lemma OrderFits(c: Copying)
    requires Tracks(c)
    ensures |c.order| == |c.fwd| && c.fwd.Keys <= Interval(c.lo, c.hi)
  {
    OrderSize(c, |c.order|);
    forall x | x in c.fwd
      ensures x in set i | 0 <= i < |c.order| :: c.order[i]
    {
      assert x == c.order[c.fwd[x] - c.ns];
    }
    assert c.fwd.Keys == set i | 0 <= i < |c.order| :: c.order[i];
  }

  lemma {:induction false} OrderSize(c: Copying, n: nat)
    requires Tracks(c) && n <= |c.order|
    ensures |set i | 0 <= i < n :: c.order[i]| == n
  {
    hide Reachable;
    if n > 0 {
      OrderSize(c, n - 1);
      assert (set i | 0 <= i < n :: c.order[i]) == (set i | 0 <= i < n - 1 :: c.order[i]) + {c.order[n - 1]};
      forall i | 0 <= i < n - 1
        ensures c.order[i] != c.order[n - 1]
      {
        assert c.fwd[c.order[i]] == c.ns + i;
      }
    }
  }

  /** There is always room for one more live cell. */
  lemma RoomForOneMore(c: Copying, x: int)
    requires Start(c) && Tracks(c) && c.lo <= x < c.hi && x !in c.fwd
    ensures |c.order| < c.hi - c.lo <= c.size
  {
    OrderFits(c);
    RoomInInterval(c.fwd.Keys, x, c.lo, c.hi);
  }

  lemma RoomInInterval(s: set<int>, x: int, lo: int, hi: int)
    requires s <= Interval(lo, hi) && lo <= x < hi && x !in s
    ensures |s| < hi - lo
  {
    SubsetSize(s + {x}, Interval(lo, hi));
  }

  lemma MoveStable(c: Copying, d: Copying, s: seq<int>)
    requires Continues(c, d)
    requires forall i :: 0 <= i < |s| ==> s[i] == 0 || s[i] in c.fwd
    requires 0 !in c.fwd && 0 !in d.fwd
    ensures MoveAll(d.fwd, s) == MoveAll(c.fwd, s)
    ensures forall i :: 0 <= i < |s| ==> Move(d.fwd, s[i]) == Move(c.fwd, s[i])
  {
  }

  /** Memory after copying the cell at `x` to `nw` and leaving a forwarding address. */
  function Forwarded(m: seq<Cell>, x: int, nw: int): seq<Cell>
    requires 0 <= x < |m| && 0 <= nw < |m| && nw != x
  {
    m[nw := m[x]][x := m[x].(mark := true, w0 := nw)]
  }

  lemma ForwardedFrame(m: seq<Cell>, x: int, nw: int, ns: int)
    requires 0 <= x < |m| && 0 <= nw < |m| && (x < ns || nw < x)
    ensures nw != x ==> forall a :: ns <= a < nw && 0 <= a ==> Forwarded(m, x, nw)[a] == m[a]
  {
  }

  lemma CopyTracks(c: Copying, x: int)
    requires Tracks(c)
    requires c.lo <= x < c.hi && x !in c.fwd && Reachable(c.m0, c.b0, c.roots, x)
    ensures Tracks(Copied(c, x)) && Continues(c, Copied(c, x))
  {
    hide Reachable;
    var d := Copied(c, x);
    forall i | 0 <= i < |d.order|
      ensures d.order[i] in d.fwd && d.fwd[d.order[i]] == d.ns + i
    {
      if i < |c.order| {
        assert d.order[i] == c.order[i];
      }
    }
    forall y | y in d.fwd
      ensures && d.lo <= y < d.hi
              && 0 <= d.fwd[y] - d.ns < |d.order| && d.order[d.fwd[y] - d.ns] == y
              && Reachable(d.m0, d.b0, d.roots, y)
    {
      if y != x {
        assert y in c.fwd && d.fwd[y] == c.fwd[y];
      }
    }
  }

  lemma CopyOldSide(c: Copying, m: seq<Cell>, x: int)
    requires Start(c) && OldSide(c, m) && c.lo <= x < c.hi && x !in c.fwd && |c.order| < c.size
    ensures OldSide(Copied(c, x), Forwarded(m, x, c.ns + |c.order|))
  {
    hide CellsOk;
  }

  lemma CopyNewSide(c: Copying, m: seq<Cell>, scan: nat, raw: nat, x: int)
    requires NewSide(c, m, scan, raw) && raw <= |c.order|
    requires 0 < x < |m| && x !in c.fwd && m[x] == c.m0[x]
    requires c.ns + |c.order| < |m| && 0 !in c.fwd
    requires x < c.ns || c.ns + |c.order| < x
    ensures NewSide(Copied(c, x), Forwarded(m, x, c.ns + |c.order|), scan, raw)
  {
    hide Scanned;
    var d, nw := Copied(c, x), c.ns + |c.order|;
    var m' := Forwarded(m, x, nw);
    assert m'[nw] == m[x];
    forall i | 0 <= i < scan
      ensures Scanned(d, m', i)
    {
      assert Scanned(c, m, i);
      assert m'[c.ns + i] == m[c.ns + i] && d.order[i] == c.order[i];
      ScannedStable(c, d, m, m', i);
    }
    forall i | raw <= i < |d.order|
      ensures m'[d.ns + i] == d.m0[d.order[i]]
    {
      if i < |c.order| {
        assert m'[c.ns + i] == m[c.ns + i];
      }
    }
  }

  lemma ScannedStable(c: Copying, d: Copying, m: seq<Cell>, m': seq<Cell>, i: nat)
    requires Continues(c, d) && 0 !in c.fwd && 0 !in d.fwd
    requires i < |c.order| && 0 < c.order[i] < |c.m0| && c.ns + i < |m| && c.ns + i < |m'|
    requires Scanned(c, m, i) && m'[c.ns + i] == m[c.ns + i]
    ensures Scanned(d, m', i)
  {
    MovedCellStable(c, d, c.m0[c.order[i]]);
  }

  lemma MovedCellStable(c: Copying, d: Copying, cell: Cell)
    requires Continues(c, d) && 0 !in c.fwd && 0 !in d.fwd
    requires ChildrenIn(cell, c.b0, c.fwd.Keys)
    ensures ChildrenIn(cell, c.b0, d.fwd.Keys)
    ensures MovedCell(d.fwd, cell) == MovedCell(c.fwd, cell)
  {
    MoveStable(c, d, Children(cell, c.b0));
    if cell.kind == Cons || cell.kind == Closure {
      assert Children(cell, c.b0)[1] == cell.w1 && Children(cell, c.b0)[0] == cell.w0;
    } else if cell.kind == Symbol {
      assert Children(cell, c.b0)[0] == cell.w1;
    }
  }

  lemma BlocksStable(c: Copying, d: Copying, m: seq<Cell>, b: Blocks, scan: nat, raw: nat)
    requires Start(c) && Tracks(c) && NewSide(c, m, scan, raw) && BlockSide(c, b, scan, raw)
    requires Tracks(d) && Continues(c, d)
    requires scan <= raw <= |c.order|
    ensures BlockSide(d, b, scan, raw)
  {
    ZeroNotCopied(c);
    ZeroNotCopied(d);
    hide Start, Tracks, NewSide;
    forall x | c.lo <= x < c.hi && x < |c.m0| && OwnsBlock(c.m0[x]) && c.m0[x].w1 in b
      ensures BlockAt(d, b, scan, raw, x)
    {
      BlockAtStable(c, d, m, b, scan, raw, x);
    }
  }

  lemma BlockAtStable(c: Copying, d: Copying, m: seq<Cell>, b: Blocks, scan: nat, raw: nat, x: int)
    requires Tracks(c) && NewSide(c, m, scan, raw) && Continues(c, d)
    requires scan <= raw <= |c.order| && 0 !in c.fwd && 0 !in d.fwd
    requires c.lo <= x < c.hi && x < |c.m0| && c.m0[x].w1 in b && c.m0[x].w1 in c.b0
    requires BlockAt(c, b, scan, raw, x)
    ensures BlockAt(d, b, scan, raw, x)
  {
    if x in c.fwd && c.fwd[x] < c.ns + scan && c.m0[x].kind == LispArray {
      ScannedChildren(c, m, scan, raw, x);
      MoveStable(c, d, c.b0[c.m0[x].w1]);
    }
  }

  lemma ScannedChildren(c: Copying, m: seq<Cell>, scan: nat, raw: nat, x: int)
    requires Tracks(c) && NewSide(c, m, scan, raw)
    requires x in c.fwd && c.fwd[x] < c.ns + scan && 0 < x < |c.m0|
    ensures ChildrenIn(c.m0[x], c.b0, c.fwd.Keys)
    ensures c.m0[x].kind == LispArray && c.m0[x].w1 in c.b0 ==> Children(c.m0[x], c.b0) == c.b0[c.m0[x].w1]
  {
    hide Reachable, MovedCell;
    assert Scanned(c, m, c.fwd[x] - c.ns);
  }

  lemma ZeroNotCopied(c: Copying)
    requires 0 < c.lo && Tracks(c)
    ensures 0 !in c.fwd
  {
  }

  /** Copying one cell and leaving a forwarding address keeps the invariant. */
  lemma CopyOne(c: Copying, m: seq<Cell>, b: Blocks, scan: nat, raw: nat, x: int)
    requires Inv(c, m, b, scan, raw)
    requires c.lo <= x < c.hi && x !in c.fwd && Reachable(c.m0, c.b0, c.roots, x)
    requires raw <= |c.order|
    ensures |c.order| < c.size
    ensures Inv(Copied(c, x), Forwarded(m, x, c.ns + |c.order|), b, scan, raw)
    ensures Continues(c, Copied(c, x))
  {
    RoomForOneMore(c, x);
    CopyTracks(c, x);
    CopyOldSide(c, m, x);
    CopyNewSide(c, m, scan, raw, x);
    BlocksStable(c, Copied(c, x), m, b, scan, raw);
  }

  lemma StartOf(c: Copying, m: seq<Cell>, b: Blocks, scan: nat, raw: nat)
    requires Inv(c, m, b, scan, raw)
    ensures Start(c)
  {
  }

  lemma InvZero(c: Copying, m: seq<Cell>, b: Blocks, scan: nat, raw: nat)
    requires Inv(c, m, b, scan, raw)
    ensures 0 !in c.fwd && Start(c)
  {
    ZeroNotCopied(c);
  }

  lemma SpaceBounds(c: Copying, m: seq<Cell>, b: Blocks, scan: nat, raw: nat)
    requires Inv(c, m, b, scan, raw)
    ensures 0 < c.ns && c.ns + |c.order| <= |m| && |c.order| <= c.size
  {
    OrderWithinSpace(c);
  }

  lemma InvOrder(c: Copying, m: seq<Cell>, b: Blocks, scan: nat, raw: nat)
    requires Inv(c, m, b, scan, raw)
    ensures forall i :: 0 <= i < |c.order| ==> c.lo <= c.order[i] < c.hi && 0 < c.order[i] < |c.m0|
  {
    hide Reachable;
  }

  /** The mark bit tells whether a cell has been copied, and then it forwards. */
  lemma MarkIsForwarded(c: Copying, m: seq<Cell>, b: Blocks, scan: nat, raw: nat, x: int)
    requires Inv(c, m, b, scan, raw) && c.lo <= x < c.hi
    ensures 0 < x < |m| && (x < c.ns || c.ns + c.size <= x)
    ensures m[x].mark <==> x in c.fwd
    ensures x in c.fwd ==> m[x].w0 == c.fwd[x]
  {
  }

  // ----- scanning one copy -----

  lemma OpenCell(c: Copying, m: seq<Cell>, b: Blocks, scan: nat)
    requires Inv(c, m, b, scan, scan) && scan < |c.order|
    ensures Inv(c, m, b, scan, scan + 1)
    ensures CellOpen(c, m, b, scan)
  {
    hide Reachable, SpaceOk, MovedCell, OldSide;
    OrderEntry(c, scan);
    var x := c.order[scan];
    OwnerInUse(c.m0, c.b0, c.lo, c.hi, x);
    if c.m0[x].kind == LispArray {
      assert BlockAt(c, b, scan, scan, x);
    }
  }

  lemma ChildToCopy(c: Copying, m: seq<Cell>, b: Blocks, scan: nat, raw: nat, x: int, i: nat)
    requires Inv(c, m, b, scan, raw)
    requires c.lo <= x < c.hi && x < |c.m0| && Reachable(c.m0, c.b0, c.roots, x)
    requires i < |Children(c.m0[x], c.b0)|
    ensures var y := Children(c.m0[x], c.b0)[i];
            y == 0 || (c.lo <= y < c.hi && Reachable(c.m0, c.b0, c.roots, y))
  {
    ChildInSpace(c.m0, c.b0, c.lo, c.hi, x, i);
    hide *;
    if Children(c.m0[x], c.b0)[i] != 0 {
      ReachableChild(c.m0, c.b0, c.roots, x, i);
    }
  }

  lemma ChildInSpace(m: seq<Cell>, b: Blocks, lo: nat, hi: nat, x: int, i: nat)
    requires SpaceOk(m, b, lo, hi) && lo <= x < hi && i < |Children(m[x], b)|
    ensures 0 < x < |m|
    ensures Children(m[x], b)[i] == 0 || lo <= Children(m[x], b)[i] < hi
  {
    assert ChildrenIn(m[x], b, Interval(lo, hi));
  }

  lemma OrderWithinSpace(c: Copying)
    requires Start(c) && Tracks(c)
    ensures |c.order| <= c.size
  {
    hide Reachable, SpaceOk;
    OrderFits(c);
    SubsetSize(c.fwd.Keys, Interval(c.lo, c.hi));
  }

  /** The copy being scanned, and its block, may be written freely. */
  lemma PokeCell(c: Copying, m: seq<Cell>, b: Blocks, scan: nat, cell: Cell)
    requires Inv(c, m, b, scan, scan + 1) && scan < |c.order|
    ensures c.ns + scan < |m| && Inv(c, m[c.ns + scan := cell], b, scan, scan + 1)
  {
    OrderWithinSpace(c);
    PokeOldSide(c, m, scan, cell);
    PokeNewSide(c, m, scan, cell);
  }

  lemma PokeOldSide(c: Copying, m: seq<Cell>, scan: nat, cell: Cell)
    requires Start(c) && OldSide(c, m) && scan < |c.order| <= c.size
    ensures OldSide(c, m[c.ns + scan := cell])
  {
    hide SpaceOk;
  }

  lemma PokeNewSide(c: Copying, m: seq<Cell>, scan: nat, cell: Cell)
    requires NewSide(c, m, scan, scan + 1) && scan < |c.order|
    ensures NewSide(c, m[c.ns + scan := cell], scan, scan + 1)
  {
    hide MovedCell, ChildrenIn;
    var m' := m[c.ns + scan := cell];
    forall i | 0 <= i < scan
      ensures Scanned(c, m', i)
    {
      assert Scanned(c, m, i);
    }
  }

  lemma PokeBlock(c: Copying, m: seq<Cell>, b: Blocks, scan: nat, data: seq<int>)
    requires Inv(c, m, b, scan, scan + 1) && scan < |c.order|
    requires c.m0[c.order[scan]].kind == LispArray
    ensures Inv(c, m, b[c.m0[c.order[scan]].w1 := data], scan, scan + 1)
  {
    var x := c.order[scan];
    OrderEntry(c, scan);
    PokeBlockSide(c, b, scan, x, data);
  }

  lemma OrderEntry(c: Copying, i: nat)
    requires Start(c) && Tracks(c) && i < |c.order|
    ensures var x := c.order[i]; 0 < c.lo <= x < c.hi <= |c.m0| && x in c.fwd && c.fwd[x] == c.ns + i
    ensures var x := c.order[i]; c.m0[x].kind == LispArray ==> c.m0[x].w1 in c.b0
  {
    hide Reachable;
  }

  lemma PokeBlockSide(c: Copying, b: Blocks, scan: nat, x: int, data: seq<int>)
    requires SpaceOk(c.m0, c.b0, c.lo, c.hi) && BlockSide(c, b, scan, scan + 1)
    requires c.lo <= x < c.hi && x in c.fwd && c.fwd[x] == c.ns + scan
    requires c.m0[x].kind == LispArray && c.m0[x].w1 in c.b0
    ensures BlockSide(c, b[c.m0[x].w1 := data], scan, scan + 1)
  {
    hide Reachable, ChildrenIn, OwnedBlocks;
    var b' := b[c.m0[x].w1 := data];
    assert b'.Keys == c.b0.Keys;
    forall y | c.lo <= y < c.hi && y < |c.m0| && OwnsBlock(c.m0[y]) && c.m0[y].w1 in b'
      ensures BlockAt(c, b', scan, scan + 1, y)
    {
      assert BlockAt(c, b, scan, scan + 1, y);
      assert y == x || c.m0[y].w1 != c.m0[x].w1;
    }
  }

  /** The copy numbered `scan`, and its block, are forwarded. */
  ghost predicate CellDone(c: Copying, m: seq<Cell>, b: Blocks, scan: nat) {
    && scan < |c.order| && c.ns + scan < |m| && 0 < c.order[scan] < |c.m0|
    && Scanned(c, m, scan)
    && var x := c.order[scan];
       c.m0[x].kind == LispArray ==>
         c.m0[x].w1 in b && c.m0[x].w1 in c.b0 && b[c.m0[x].w1] == MoveAll(c.fwd, c.b0[c.m0[x].w1])
  }

  lemma CloseCell(c: Copying, m: seq<Cell>, b: Blocks, scan: nat)
    requires Inv(c, m, b, scan, scan + 1) && CellDone(c, m, b, scan)
    ensures Inv(c, m, b, scan + 1, scan + 1)
  {
    CloseNewSide(c, m, scan);
    CloseBlockSide(c, b, scan);
  }

  lemma CloseNewSide(c: Copying, m: seq<Cell>, scan: nat)
    requires NewSide(c, m, scan, scan + 1) && scan < |c.order| && Scanned(c, m, scan)
    ensures NewSide(c, m, scan + 1, scan + 1)
  {
    hide Scanned;
  }

  lemma CloseBlockSide(c: Copying, b: Blocks, scan: nat)
    requires Start(c) && Tracks(c) && BlockSide(c, b, scan, scan + 1) && scan < |c.order|
    requires var x := c.order[scan];
             && 0 <= x < |c.m0|
             && (c.m0[x].kind == LispArray ==>
                   c.m0[x].w1 in b && c.m0[x].w1 in c.b0 && b[c.m0[x].w1] == MoveAll(c.fwd, c.b0[c.m0[x].w1]))
    ensures BlockSide(c, b, scan + 1, scan + 1)
  {
    hide Reachable, SpaceOk, MoveAll;
    forall y | c.lo <= y < c.hi && y < |c.m0| && OwnsBlock(c.m0[y]) && c.m0[y].w1 in b
      ensures BlockAt(c, b, scan + 1, scan + 1, y)
    {
      assert BlockAt(c, b, scan, scan + 1, y);
      if y in c.fwd {
        assert c.order[c.fwd[y] - c.ns] == y;
      }
    }
  }

  /** The copy numbered `scan` is still as it was in the old space, and so is its block. */
  ghost predicate CellOpen(c: Copying, m: seq<Cell>, b: Blocks, scan: nat) {
    && scan < |c.order| && 0 < c.ns + scan < |m|
    && var x := c.order[scan];
       && 0 < c.lo <= x < c.hi <= |c.m0| && Reachable(c.m0, c.b0, c.roots, x)
       && m[c.ns + scan] == c.m0[x]
       && (c.m0[x].kind == LispArray ==>
             && c.m0[x].w1 in c.b0 && c.m0[x].w0 == |c.b0[c.m0[x].w1]|
             && c.m0[x].w1 in b && b[c.m0[x].w1] == c.b0[c.m0[x].w1])
  }

  /** The first `done` words of block `id` are forwarded and the others are as they were. */
  ghost predicate BlockDone(c: Copying, b: Blocks, id: int, done: nat) {
    && id in b && id in c.b0 && |b[id]| == |c.b0[id]|
    && (forall i :: 0 <= i < done && i < |b[id]| ==>
          b[id][i] == Move(c.fwd, c.b0[id][i]) && (c.b0[id][i] == 0 || c.b0[id][i] in c.fwd))
    && (forall i :: done <= i < |b[id]| ==> b[id][i] == c.b0[id][i])
  }

  ghost predicate LispArrayAt(c: Copying, x: int, id: int) {
    && 0 <= x < |c.m0| && c.lo <= x < c.hi && Reachable(c.m0, c.b0, c.roots, x)
    && c.m0[x].kind == LispArray && c.m0[x].w1 == id && id in c.b0
  }

  lemma LispArrayIs(c: Copying, m: seq<Cell>, b: Blocks, scan: nat)
    requires CellOpen(c, m, b, scan) && c.m0[c.order[scan]].kind == LispArray
    ensures 0 <= c.ns + scan < |m|
    ensures var cell := m[c.ns + scan];
            && cell == c.m0[c.order[scan]] && LispArrayAt(c, c.order[scan], cell.w1)
            && BlockDone(c, b, cell.w1, 0) && cell.w1 in c.b0 && cell.w0 == |c.b0[cell.w1]|
  {
    hide Reachable;
  }

  lemma ElementToCopy(c: Copying, m: seq<Cell>, b: Blocks, scan: nat, id: int, j: nat)
    requires Inv(c, m, b, scan, scan + 1) && scan < |c.order| && LispArrayAt(c, c.order[scan], id)
    requires j < |c.b0[id]|
    ensures var y := c.b0[id][j]; y == 0 || (c.lo <= y < c.hi && Reachable(c.m0, c.b0, c.roots, y))
    ensures 0 !in c.fwd
  {
    hide Reachable, Inv;
    InvZero(c, m, b, scan, scan + 1);
    ChildToCopy(c, m, b, scan, scan + 1, c.order[scan], j);
  }

  lemma PokeElement(c: Copying, m: seq<Cell>, b: Blocks, scan: nat, id: int, data: seq<int>)
    requires Inv(c, m, b, scan, scan + 1) && scan < |c.order| && LispArrayAt(c, c.order[scan], id)
    ensures Inv(c, m, b[id := data], scan, scan + 1)
    ensures 0 !in c.fwd
  {
    hide Reachable, Inv;
    InvZero(c, m, b, scan, scan + 1);
    PokeBlock(c, m, b, scan, data);
  }

  lemma LispArrayStays(c: Copying, d: Copying, x: int, id: int)
    requires Continues(c, d)
    ensures LispArrayAt(c, x, id) <==> LispArrayAt(d, x, id)
  {
    hide Reachable;
  }

  lemma BlockNext(c: Copying, b: Blocks, id: int, k: nat)
    requires BlockDone(c, b, id, k) && id in c.b0 && k < |c.b0[id]|
    ensures id in b && k < |b[id]| && b[id][k] == c.b0[id][k]
  {
  }

  lemma BlockStep(c: Copying, d: Copying, b: Blocks, id: int, k: nat)
    requires BlockDone(c, b, id, k) && Continues(c, d) && id in b && k < |b[id]|
    requires 0 !in c.fwd && 0 !in d.fwd
    requires c.b0[id][k] == 0 || c.b0[id][k] in d.fwd
    ensures BlockDone(d, b[id := b[id][k := Move(d.fwd, c.b0[id][k])]], id, k + 1)
  {
  }

  /** `ptr` is where the copy numbered `scan` lives. */
  ghost predicate Holding(c: Copying, scan: nat, ptr: int) {
    && scan < |c.order| && ptr == c.ns + scan && c.lo <= c.order[scan] < c.hi
    && 0 <= c.order[scan] < |c.m0| && Reachable(c.m0, c.b0, c.roots, c.order[scan])
  }

  lemma FieldToCopy(c: Copying, m: seq<Cell>, b: Blocks, scan: nat, i: nat)
    requires Inv(c, m, b, scan, scan + 1) && Holding(c, scan, c.ns + scan)
    requires i < |Children(c.m0[c.order[scan]], c.b0)|
    ensures var y := Children(c.m0[c.order[scan]], c.b0)[i];
            y == 0 || (c.lo <= y < c.hi && Reachable(c.m0, c.b0, c.roots, y))
  {
    hide Inv, Reachable;
    ChildToCopy(c, m, b, scan, scan + 1, c.order[scan], i);
  }

  lemma BlockFinished(c: Copying, m: seq<Cell>, b: Blocks, scan: nat, id: int)
    requires scan < |c.order| && 0 < c.ns + scan < |m| && 0 < c.order[scan]
    requires LispArrayAt(c, c.order[scan], id) && m[c.ns + scan] == c.m0[c.order[scan]]
    requires id in c.b0 && BlockDone(c, b, id, |c.b0[id]|)
    ensures CellDone(c, m, b, scan)
  {
    hide Reachable;
  }

  lemma FieldsDone(c: Copying, m: seq<Cell>, b: Blocks, scan: nat, cell: Cell)
    requires scan < |c.order| && 0 < c.ns + scan < |m| && 0 < c.order[scan] < |c.m0|
    requires c.m0[c.order[scan]] == cell && cell.kind in {Cons, Closure, Symbol}
    requires m[c.ns + scan] == MovedCell(c.fwd, cell)
    requires cell.kind == Symbol || cell.w0 == 0 || cell.w0 in c.fwd
    requires cell.w1 == 0 || cell.w1 in c.fwd
    ensures CellDone(c, m, b, scan)
  {
  }

  lemma AtomDone(c: Copying, m: seq<Cell>, b: Blocks, scan: nat)
    requires CellOpen(c, m, b, scan) && 0 < c.order[scan]
    requires m[c.ns + scan].kind !in {Cons, Closure, Symbol, LispArray}
    ensures CellDone(c, m, b, scan)
  {
    hide Reachable;
  }

  // ----- the end of a collection -----

  /** The collection is a copy of the graph: exactly the reachable cells were copied,
      each once, and every copy is the old cell with its pointers forwarded. */
  ghost predicate GraphCopied(c: Copying, m: seq<Cell>, b: Blocks, roots: seq<int>) {
    && (forall x :: x in c.fwd <==> Reachable(c.m0, c.b0, c.roots, x))
    && |roots| == |c.roots|
    && (forall k :: 0 <= k < |roots| ==> roots[k] == Move(c.fwd, c.roots[k]))
    && (forall x :: x in c.fwd ==> CellCopied(c, m, b, x))
  }

  ghost predicate CellCopied(c: Copying, m: seq<Cell>, b: Blocks, x: int)
    requires x in c.fwd
  {
    && 0 < x < |c.m0| && 0 < c.fwd[x] < |m|
    && ChildrenIn(c.m0[x], c.b0, c.fwd.Keys)
    && m[c.fwd[x]] == MovedCell(c.fwd, c.m0[x])
    && (OwnsBlock(c.m0[x]) ==>
          && c.m0[x].w1 in b && c.m0[x].w1 in c.b0
          && b[c.m0[x].w1] == if c.m0[x].kind == LispArray then MoveAll(c.fwd, c.b0[c.m0[x].w1]) else c.b0[c.m0[x].w1])
  }

  lemma CopiedAre(c: Copying, m: seq<Cell>, b: Blocks)
    requires Inv(c, m, b, |c.order|, |c.order|)
    ensures forall x :: x in c.fwd ==> CellCopied(c, m, b, x)
  {
    forall x | x in c.fwd
      ensures CellCopied(c, m, b, x)
    {
      CopiedIs(c, m, b, x);
    }
  }

  lemma CopiedIs(c: Copying, m: seq<Cell>, b: Blocks, x: int)
    requires Inv(c, m, b, |c.order|, |c.order|) && x in c.fwd
    ensures CellCopied(c, m, b, x)
  {
    hide Reachable, SpaceOk, OldSide, ChildrenIn, MoveAll;
    var i := c.fwd[x] - c.ns;
    assert c.order[i] == x && Scanned(c, m, i);
    OrderEntry(c, i);
    OwnerInUse(c.m0, c.b0, c.lo, c.hi, x);
    if OwnsBlock(c.m0[x]) {
      assert BlockAt(c, b, |c.order|, |c.order|, x);
    }
  }

  lemma AllReachableCopied(c: Copying, m: seq<Cell>, b: Blocks, g: seq<int>, all: seq<nat>)
    requires Inv(c, m, b, |c.order|, |c.order|) && RootsDone(c, g, all, |all|)
    ensures forall x :: x in c.fwd <==> Reachable(c.m0, c.b0, c.roots, x)
  {
    hide Reachable;
    CopiedAre(c, m, b);
    assert Closed(c.m0, c.b0, c.roots, c.fwd.Keys);
    ClosedIsReachable(c.m0, c.b0, c.roots, c.fwd.Keys);
  }

  /** The blocks of the old cells below `end` that were not copied. */
  function DeadBlocks(c: Copying, end: nat): set<int> {
    OwnedBlocks(c.m0, Interval(c.lo, end) - c.fwd.Keys)
  }

  lemma NothingDeadYet(c: Copying)
    ensures DeadBlocks(c, c.lo) == {}
  {
  }

  lemma OwnersDiffer(m: seq<Cell>, b: Blocks, lo: nat, hi: nat, x: int, y: int)
    requires SpaceOk(m, b, lo, hi) && lo <= x < hi && lo <= y < hi && x != y
    requires OwnsBlock(m[x]) && OwnsBlock(m[y])
    ensures m[x].w1 != m[y].w1
  {
    hide ChildrenIn, OwnedBlocks;
    assert x < y || y < x;
  }

  lemma OwnerInUse(m: seq<Cell>, b: Blocks, lo: nat, hi: nat, x: int)
    requires SpaceOk(m, b, lo, hi) && lo <= x < hi
    ensures 0 < x < |m| && !m[x].mark && ChildrenIn(m[x], b, Interval(lo, hi))
    ensures OwnsBlock(m[x]) ==> m[x].w1 in b
    ensures m[x].kind == LispArray ==> m[x].w1 in b && m[x].w0 == |b[m[x].w1]|
  {
    hide ChildrenIn;
    assert OwnsBlock(m[x]) ==> m[x].w1 in OwnedBlocks(m, Interval(lo, hi));
  }

  /** A cell's block is not among those freed so far unless the cell itself is dead. */
  lemma NotDead(c: Copying, x: nat, end: nat)
    requires SpaceOk(c.m0, c.b0, c.lo, c.hi) && c.lo <= x < c.hi && x < |c.m0| && OwnsBlock(c.m0[x])
    requires x in c.fwd || end <= x
    requires end <= c.hi
    ensures c.m0[x].w1 !in DeadBlocks(c, end)
  {
    hide SpaceOk;
    var id := c.m0[x].w1;
    if id in DeadBlocks(c, end) {
      var y :| y in Interval(c.lo, end) - c.fwd.Keys && 0 < y < |c.m0| && OwnsBlock(c.m0[y]) && c.m0[y].w1 == id;
      OwnersDiffer(c.m0, c.b0, c.lo, c.hi, x, y);
    }
  }

  /** Whether an old cell's block is to be freed, and that it is still allocated then. */
  lemma DeadStep(c: Copying, b1: Blocks, x: nat)
    requires SpaceOk(c.m0, c.b0, c.lo, c.hi) && b1.Keys == c.b0.Keys && c.lo <= x < c.hi && x < |c.m0|
    ensures var dead := DeadBlocks(c, x);
            if x !in c.fwd && OwnsBlock(c.m0[x]) then
              c.m0[x].w1 in b1 && c.m0[x].w1 !in dead && DeadBlocks(c, x + 1) == dead + {c.m0[x].w1}
            else DeadBlocks(c, x + 1) == dead
  {
    hide SpaceOk, OwnedBlocks, ChildrenIn, OwnsBlock;
    OwnerInUse(c.m0, c.b0, c.lo, c.hi, x);
    if OwnsBlock(c.m0[x]) {
      NotDead(c, x, x);
    }
    DeadOneMore(c, x);
  }

  lemma DeadOneMore(c: Copying, x: nat)
    requires 0 < x < |c.m0| && c.lo <= x
    ensures DeadBlocks(c, x + 1) ==
            DeadBlocks(c, x) + if x !in c.fwd && OwnsBlock(c.m0[x]) then {c.m0[x].w1} else {}
  {
    hide OwnedBlocks;
    assert Interval(c.lo, x + 1) == Interval(c.lo, x) + {x};
    var S, T := Interval(c.lo, x) - c.fwd.Keys, Interval(c.lo, x + 1) - c.fwd.Keys;
    if x !in c.fwd {
      assert T == S + {x};
      OwnedOneMore(c.m0, S, x);
    } else {
      assert T == S;
    }
  }

  lemma OldCell(c: Copying, m: seq<Cell>, x: nat)
    requires OldSide(c, m) && c.lo <= x < c.hi && SpaceOk(c.m0, c.b0, c.lo, c.hi)
    ensures 0 < x < |m| && (m[x].mark <==> x in c.fwd) && (x !in c.fwd ==> m[x] == c.m0[x])
  {
    hide ChildrenIn, OwnedBlocks;
  }

  lemma OldBounds(c: Copying, m: seq<Cell>)
    requires OldSide(c, m) && SpaceOk(c.m0, c.b0, c.lo, c.hi)
    ensures 0 < c.lo <= c.hi <= |m| == |c.m0|
  {
    hide ChildrenIn, OwnedBlocks;
  }

  /** Freeing the dead blocks leaves exactly the blocks of the copied cells. */
  lemma LiveBlocksRemain(c: Copying)
    requires SpaceOk(c.m0, c.b0, c.lo, c.hi) && c.fwd.Keys <= Interval(c.lo, c.hi)
    ensures c.b0.Keys - DeadBlocks(c, c.hi) == OwnedBlocks(c.m0, c.fwd.Keys)
  {
    hide ChildrenIn;
    var I := Interval(c.lo, c.hi);
    forall id | id in c.b0.Keys - DeadBlocks(c, c.hi)
      ensures id in OwnedBlocks(c.m0, c.fwd.Keys)
    {
      var x :| x in I && 0 < x < |c.m0| && OwnsBlock(c.m0[x]) && c.m0[x].w1 == id;
      assert x in c.fwd.Keys by {
        assert x in I - c.fwd.Keys ==> id in DeadBlocks(c, c.hi);
      }
    }
    forall id | id in OwnedBlocks(c.m0, c.fwd.Keys)
      ensures id in c.b0.Keys - DeadBlocks(c, c.hi)
    {
      var x :| x in c.fwd.Keys && 0 < x < |c.m0| && OwnsBlock(c.m0[x]) && c.m0[x].w1 == id;
      assert x in I;
      OwnerInUse(c.m0, c.b0, c.lo, c.hi, x);
      NotDead(c, x, c.hi);
    }
  }

  lemma RootsStable(c: Copying, d: Copying, g: seq<int>, all: seq<nat>)
    requires RootsDone(c, g, all, |all|) && (c == d || Continues(c, d)) && 0 !in c.fwd && 0 !in d.fwd
    ensures RootsDone(d, g, all, |all|)
  {
  }

  lemma BeginInv(c: Copying)
    requires SpaceOk(c.m0, c.b0, c.lo, c.hi) && 0 < c.ns && c.ns + c.size <= |c.m0|
    requires (c.hi <= c.ns || c.ns + c.size <= c.lo) && c.hi - c.lo <= c.size
    requires RootsIn(c.roots, c.lo, c.hi)
    requires c.order == [] && c.fwd == map[]
    ensures Inv(c, c.m0, c.b0, 0, 0)
  {
    hide ChildrenIn, OwnedBlocks;
  }

  lemma AfterScan(c: Copying, m: seq<Cell>, b: Blocks, g: seq<int>, regs: seq<Register>)
    requires Inv(c, m, b, |c.order|, |c.order|)
    requires RootsDone(c, g, Locations(regs), |Locations(regs)|)
    ensures GraphCopied(c, m, b, Roots(g, regs))
    ensures OldSide(c, m) && Tracks(c) && Start(c) && SpaceOk(c.m0, c.b0, c.lo, c.hi) && b.Keys == c.b0.Keys
    ensures |m| == |c.m0|
  {
    hide Reachable;
    AllReachableCopied(c, m, b, g, Locations(regs));
    CopiedAre(c, m, b);
  }

  /** Freeing the old space leaves the copied graph alone, and the new space is in order. */
  lemma EndOfCollection(c: Copying, m1: seq<Cell>, b1: Blocks, m: seq<Cell>, b: Blocks, roots: seq<int>)
    requires Start(c) && Tracks(c) && GraphCopied(c, m1, b1, roots)
    requires |m| == |m1| == |c.m0| && (forall a :: 0 <= a < |m| && !(c.lo <= a < c.hi) ==> m[a] == m1[a])
    requires b1.Keys == c.b0.Keys && b == b1 - DeadBlocks(c, c.hi)
    ensures GraphCopied(c, m, b, roots)
    ensures SpaceOk(m, b, c.ns, c.ns + |c.order|)
    ensures b.Keys == OwnedBlocks(c.m0, c.fwd.Keys)
    ensures |c.order| == |c.fwd| <= c.hi - c.lo
    ensures RootsIn(roots, c.ns, c.ns + |c.order|)
  {
    hide *;
    StartSpace(c);
    OrderWithinSpace(c);
    OrderFits(c);
    SubsetSize(c.fwd.Keys, Interval(c.lo, c.hi));
    LiveBlocksRemain(c);
    GraphStays(c, m1, b1, m, b, roots);
    NewSpaceOk(c, m, b);
    RootsOfCopy(c, m, b, roots);
  }

  lemma StartSpace(c: Copying)
    requires Start(c)
    ensures SpaceOk(c.m0, c.b0, c.lo, c.hi) && 0 < c.lo <= c.hi
  {
    hide CellsOk, RootsIn;
  }

  /** What every copied cell says is not disturbed by freeing the old space. */
  lemma GraphStays(c: Copying, m1: seq<Cell>, b1: Blocks, m: seq<Cell>, b: Blocks, roots: seq<int>)
    requires Start(c) && Tracks(c) && GraphCopied(c, m1, b1, roots) && |c.order| <= c.size
    requires |m| == |m1| == |c.m0| && (forall a :: 0 <= a < |m| && !(c.lo <= a < c.hi) ==> m[a] == m1[a])
    requires b1.Keys == c.b0.Keys && b == b1 - DeadBlocks(c, c.hi)
    requires b.Keys == OwnedBlocks(c.m0, c.fwd.Keys)
    ensures GraphCopied(c, m, b, roots)
    ensures forall x :: x in c.fwd ==> CellCopied(c, m, b, x)
  {
    hide Start, Tracks, Reachable, CellCopied, DeadBlocks, OwnedBlocks;
    forall x | x in c.fwd
      ensures CellCopied(c, m, b, x)
    {
      KeepCopied(c, m1, b1, m, b, x);
    }
  }

  lemma RootsOfCopy(c: Copying, m: seq<Cell>, b: Blocks, roots: seq<int>)
    requires Tracks(c) && GraphCopied(c, m, b, roots)
    ensures RootsIn(roots, c.ns, c.ns + |c.order|)
  {
    hide Reachable, CellCopied;
  }

  lemma KeepCopied(c: Copying, m1: seq<Cell>, b1: Blocks, m: seq<Cell>, b: Blocks, x: int)
    requires Start(c) && Tracks(c) && x in c.fwd && CellCopied(c, m1, b1, x) && |c.order| <= c.size
    requires |m| == |m1| == |c.m0| && (forall a :: 0 <= a < |m| && !(c.lo <= a < c.hi) ==> m[a] == m1[a])
    requires b1.Keys == c.b0.Keys && b == b1 - DeadBlocks(c, c.hi)
    requires b.Keys == OwnedBlocks(c.m0, c.fwd.Keys)
    ensures CellCopied(c, m, b, x)
  {
    hide Reachable, SpaceOk, DeadBlocks;
  }

  /** The pointers in a copied cell are the forwarded pointers of the old cell. */
  lemma ChildrenCopied(c: Copying, m: seq<Cell>, b: Blocks, x: int)
    requires x in c.fwd && CellCopied(c, m, b, x)
    ensures Children(m[c.fwd[x]], b) == MoveAll(c.fwd, Children(c.m0[x], c.b0))
  {
  }

  lemma NewSpaceOk(c: Copying, m: seq<Cell>, b: Blocks)
    requires Start(c) && Tracks(c) && |c.order| <= c.size && |m| == |c.m0|
    requires forall x :: x in c.fwd ==> CellCopied(c, m, b, x)
    requires b.Keys == OwnedBlocks(c.m0, c.fwd.Keys)
    ensures SpaceOk(m, b, c.ns, c.ns + |c.order|)
  {
    hide *;
    NewBounds(c);
    NewOwners(c, m, b);
    NewCellsOk(c, m, b);
    NewOwnersDiffer(c, m, b);
    SpaceIs(m, b, c.ns, c.ns + |c.order|);
  }

  lemma SpaceIs(m: seq<Cell>, b: Blocks, lo: nat, hi: nat)
    requires 0 < lo <= hi <= |m|
    requires EachOk(m, b, Interval(lo, hi)) && OwnersApart(m, Interval(lo, hi))
    requires b.Keys == OwnedBlocks(m, Interval(lo, hi))
    ensures SpaceOk(m, b, lo, hi)
  {
    hide EachOk, OwnersApart, OwnedBlocks;
  }

  lemma NewCellsOk(c: Copying, m: seq<Cell>, b: Blocks)
    requires Start(c) && Tracks(c) && |c.order| <= c.size && |m| == |c.m0|
    requires forall x :: x in c.fwd ==> CellCopied(c, m, b, x)
    ensures EachOk(m, b, Interval(c.ns, c.ns + |c.order|))
  {
    NewBounds(c);
    hide Tracks, CellCopied, CellOk, Start, OwnsBlock;
    var S := Interval(c.ns, c.ns + |c.order|);
    forall a | a in S
      ensures 0 < a < |m| && CellOk(m[a], b, S)
    {
      NewCellIsOk(c, m, b, a);
    }
  }

  lemma NewOwnersDiffer(c: Copying, m: seq<Cell>, b: Blocks)
    requires Start(c) && Tracks(c) && |c.order| <= c.size && |m| == |c.m0|
    requires forall x :: x in c.fwd ==> CellCopied(c, m, b, x)
    ensures OwnersApart(m, Interval(c.ns, c.ns + |c.order|))
  {
    NewBounds(c);
    hide Tracks, CellCopied, CellOk, Start, OwnsBlock;
    var S := Interval(c.ns, c.ns + |c.order|);
    forall a, a' | a in S && a' in S && a != a' && 0 < a < |m| && 0 < a' < |m| && OwnsBlock(m[a]) && OwnsBlock(m[a'])
      ensures m[a].w1 != m[a'].w1
    {
      DistinctOwners(c, m, b, a, a');
    }
  }

  lemma NewBounds(c: Copying)
    requires Start(c) && |c.order| <= c.size
    ensures 0 < c.ns && c.ns + |c.order| <= |c.m0|
  {
    hide SpaceOk;
  }

  lemma NewCellIsOk(c: Copying, m: seq<Cell>, b: Blocks, a: int)
    requires Start(c) && Tracks(c) && |c.order| <= c.size && |m| == |c.m0|
    requires forall x :: x in c.fwd ==> CellCopied(c, m, b, x)
    requires c.ns <= a < c.ns + |c.order|
    ensures 0 <= a < |m| && CellOk(m[a], b, Interval(c.ns, c.ns + |c.order|))
  {
    hide *;
    OrderEntry(c, a - c.ns);
    var x := c.order[a - c.ns];
    assert CellCopied(c, m, b, x);
    NewCellFrom(c, m, b, x);
  }

  lemma NewCellFrom(c: Copying, m: seq<Cell>, b: Blocks, x: int)
    requires Start(c) && Tracks(c) && c.lo <= x < c.hi && x in c.fwd && CellCopied(c, m, b, x)
    ensures 0 <= c.fwd[x] < |m| && CellOk(m[c.fwd[x]], b, Interval(c.ns, c.ns + |c.order|))
  {
    hide Reachable, SpaceOk, ChildrenIn, Tracks;
    OwnerInUse(c.m0, c.b0, c.lo, c.hi, x);
    ChildrenCopied(c, m, b, x);
    MovedChildrenInSpace(c, m, b, x);
  }

  lemma MovedChildrenInSpace(c: Copying, m: seq<Cell>, b: Blocks, x: int)
    requires Tracks(c) && x in c.fwd && 0 <= x < |c.m0| && 0 <= c.fwd[x] < |m|
    requires Children(m[c.fwd[x]], b) == MoveAll(c.fwd, Children(c.m0[x], c.b0))
    ensures ChildrenIn(m[c.fwd[x]], b, Interval(c.ns, c.ns + |c.order|))
  {
    hide Reachable;
  }

  lemma DistinctOwners(c: Copying, m: seq<Cell>, b: Blocks, a: int, a': int)
    requires Start(c) && Tracks(c) && |c.order| <= c.size && |m| == |c.m0|
    requires forall x :: x in c.fwd ==> CellCopied(c, m, b, x)
    requires a != a' && c.ns <= a < c.ns + |c.order| && c.ns <= a' < c.ns + |c.order|
    requires OwnsBlock(m[a]) && OwnsBlock(m[a'])
    ensures m[a].w1 != m[a'].w1
  {
    hide Reachable, ChildrenIn, OwnedBlocks, SpaceOk, Tracks;
    var x, x' := c.order[a - c.ns], c.order[a' - c.ns];
    OrderEntry(c, a - c.ns);
    OrderEntry(c, a' - c.ns);
    assert CellCopied(c, m, b, x) && CellCopied(c, m, b, x');
    OwnersDiffer(c.m0, c.b0, c.lo, c.hi, x, x');
  }

  lemma NewOwners(c: Copying, m: seq<Cell>, b: Blocks)
    requires Start(c) && Tracks(c) && |c.order| <= c.size && |m| == |c.m0|
    requires forall x :: x in c.fwd ==> CellCopied(c, m, b, x)
    ensures OwnedBlocks(m, Interval(c.ns, c.ns + |c.order|)) == OwnedBlocks(c.m0, c.fwd.Keys)
  {
    hide Start, Tracks, CellCopied, OwnsBlock;
    var I := Interval(c.ns, c.ns + |c.order|);
    forall id | id in OwnedBlocks(m, I)
      ensures id in OwnedBlocks(c.m0, c.fwd.Keys)
    {
      var a :| a in I && 0 < a < |m| && OwnsBlock(m[a]) && m[a].w1 == id;
      OwnerBefore(c, m, b, a);
    }
    forall id | id in OwnedBlocks(c.m0, c.fwd.Keys)
      ensures id in OwnedBlocks(m, I)
    {
      var x :| x in c.fwd.Keys && 0 < x < |c.m0| && OwnsBlock(c.m0[x]) && c.m0[x].w1 == id;
      OwnerAfter(c, m, b, x);
    }
  }

  /** The old cell whose copy owns a block owned it. */
  lemma OwnerBefore(c: Copying, m: seq<Cell>, b: Blocks, a: int)
    requires Start(c) && Tracks(c) && c.ns <= a < c.ns + |c.order| && 0 < a < |m|
    requires (forall x :: x in c.fwd ==> CellCopied(c, m, b, x)) && OwnsBlock(m[a])
    ensures var x := c.order[a - c.ns]; x in c.fwd.Keys && 0 < x < |c.m0| && OwnsBlock(c.m0[x]) && c.m0[x].w1 == m[a].w1
  {
    hide Reachable, ChildrenIn, SpaceOk;
    OrderEntry(c, a - c.ns);
    assert CellCopied(c, m, b, c.order[a - c.ns]);
  }

  /** The copy of an old cell that owned a block owns it. */
  lemma OwnerAfter(c: Copying, m: seq<Cell>, b: Blocks, x: int)
    requires Tracks(c) && x in c.fwd && CellCopied(c, m, b, x) && OwnsBlock(c.m0[x])
    ensures c.ns <= c.fwd[x] < c.ns + |c.order| && 0 < c.fwd[x] < |m|
    ensures OwnsBlock(m[c.fwd[x]]) && m[c.fwd[x]].w1 == c.m0[x].w1
  {
    hide Reachable, ChildrenIn;
  }

  // ----- the registers -----

  /** The first `done` roots are forwarded and the others are still as they were. */
  ghost predicate RootsDone(c: Copying, g: seq<int>, all: seq<nat>, done: nat) {
    && |c.roots| == |all|
    && (forall i :: 0 <= i < |all| ==> all[i] < |g|)
    && (forall i :: 0 <= i < done && i < |all| ==>
          g[all[i]] == Move(c.fwd, c.roots[i]) && (c.roots[i] == 0 || c.roots[i] in c.fwd))
    && (forall i :: done <= i < |all| ==> g[all[i]] == c.roots[i])
  }

  lemma RootToCopy(c: Copying, k: nat)
    requires Start(c) && k < |c.roots|
    ensures c.roots[k] == 0 || (c.lo <= c.roots[k] < c.hi && Reachable(c.m0, c.b0, c.roots, c.roots[k]))
  {
    hide SpaceOk;
    if c.roots[k] != 0 {
      ReachableRoot(c.m0, c.b0, c.roots, k);
    }
  }

  lemma StartOfRoots(c: Copying, g: seq<int>, regs: seq<Register>)
    requires c.roots == Roots(g, regs) && InRange(regs, |g|)
    ensures RootsDone(c, g, Locations(regs), 0)
  {
  }

  lemma RootsStep(c: Copying, d: Copying, g: seq<int>, all: seq<nat>, k: nat)
    requires RootsDone(c, g, all, k) && Continues(c, d) && k < |all| && Distinct(all)
    requires 0 !in c.fwd && 0 !in d.fwd
    requires c.roots[k] == 0 || c.roots[k] in d.fwd
    ensures RootsDone(d, g[all[k] := Move(d.fwd, c.roots[k])], all, k + 1)
  {
  }

  // ----- allocation -----

  lemma RootsInMore(roots: seq<int>, lo: nat, hi: nat)
    requires RootsIn(roots, lo, hi)
    ensures RootsIn(roots, lo, hi + 1)
  {
  }

  lemma SpaceGrows(m: seq<Cell>, b: Blocks, lo: nat, z: nat, kind: Kind, w0: int, w1: int, x: nat, y: nat)
    requires SpaceOk(m, b, lo, z) && z < |m| && Plain(kind)
    requires (x == 0 || lo <= x < z) && (y == 0 || lo <= y < z)
    ensures SpaceOk(m[z := Made(kind, w0, w1, x, y)], b, lo, z + 1)
  {
    hide CellsOk, Interval, CellOk, Made, Plain;
    var S, m2 := Interval(lo, z), m[z := Made(kind, w0, w1, x, y)];
    assert Interval(lo, z + 1) == S + {z as int};
    CellsOkFrame(m, m2, b, S);
    MadeOk(kind, w0, w1, x, y, b, S + {z as int});
    CellsOkMore(m2, b, b, S, z);
  }

  lemma SpaceArray(m: seq<Cell>, b: Blocks, lo: nat, hi: nat, z: nat, c: Cell)
    requires SpaceOk(m, b, lo, hi) && lo <= z < hi && !OwnsBlock(m[z])
    requires OwnsBlock(c) && !c.mark && c.w0 >= 0 && c.w1 !in b
    ensures SpaceOk(m[z := c], b[c.w1 := Initial(c.kind, c.w0)], lo, hi)
  {
    hide CellsOk, Interval;
    CellsOkArray(m, m[z := c], b, b[c.w1 := Initial(c.kind, c.w0)], Interval(lo, hi), z, c.w0);
  }

  lemma SpaceSet(m: seq<Cell>, b: Blocks, lo: nat, hi: nat, x: nat, c: Cell)
    requires SpaceOk(m, b, lo, hi) && lo <= x < hi && !OwnsBlock(m[x])
    requires !OwnsBlock(c) && CellOk(c, b, Interval(lo, hi))
    ensures SpaceOk(m[x := c], b, lo, hi)
  {
    hide CellsOk, Interval, CellOk;
    CellsOkSet(m, m[x := c], b, Interval(lo, hi), x);
  }

  lemma SpacePoke(m: seq<Cell>, b: Blocks, lo: nat, hi: nat, x: nat, j: nat, v: nat)
    requires SpaceOk(m, b, lo, hi) && lo <= x < hi && m[x].kind == LispArray && (v == 0 || lo <= v < hi)
    ensures m[x].w1 in b && m[x].w0 == |b[m[x].w1]|
    ensures j < |b[m[x].w1]| ==> SpaceOk(m, b[m[x].w1 := b[m[x].w1][j := v]], lo, hi)
  {
    hide CellsOk;
    CellsOkPoke(m, b, Interval(lo, hi), x, j, v);
  }

  lemma SpaceCell(m: seq<Cell>, b: Blocks, lo: nat, hi: nat, x: nat)
    requires SpaceOk(m, b, lo, hi) && lo <= x < hi
    ensures !m[x].mark
  {
    hide OwnersApart, OwnedBlocks;
    assert x as int in Interval(lo, hi);
    assert CellOk(m[x], b, Interval(lo, hi));
  }

  lemma RootsSet(g: seq<int>, regs: seq<Register>, a: nat, v: int, lo: nat, hi: nat)
    requires RootsIn(Roots(g, regs), lo, hi) && a < |g| && (v == 0 || lo <= v < hi)
    ensures RootsIn(Roots(g[a := v], regs), lo, hi)
  {
    var rs := Roots(g[a := v], regs);
    forall k | 0 <= k < |rs|
      ensures rs[k] == 0 || lo <= rs[k] < hi
    {
      assert Roots(g, regs)[k] == 0 || lo <= Roots(g, regs)[k] < hi;
    }
  }

  /** Protecting a range of variables apart from the protected ones. */
  lemma RootsAdded(g: seq<int>, regs: seq<Register>, r: Register, lo: nat, hi: nat)
    requires RootsIn(Roots(g, regs), lo, hi) && Distinct(Locations(regs)) && InRange(regs, |g|)
    requires r.location + r.length <= |g|
    requires forall a :: r.location <= a < r.location + r.length ==> a !in Locations(regs) && (g[a] == 0 || lo <= g[a] < hi)
    ensures RootsIn(Roots(g, [r] + regs), lo, hi) && Distinct(Locations([r] + regs)) && InRange([r] + regs, |g|)
  {
    RegisterMore(g, regs, r);
    hide Roots;
    var l := Locations(regs);
    assert forall i :: 0 <= i < |l| ==> l[i] in l;
    assert Locations([r] + regs) == Span(r) + l;
    assert Distinct(Span(r) + l);
  }

  class CopyHeap {
    const heapSize: nat
    const mem: array<Cell>       // index 0 is NIL, then heaps[0] and heaps[1]
    const globals: array<int>    // the C variables that may be protected
    var heap: nat
    var heapOrg: nat
    var heapEnd: nat
    var blocks: Blocks
    var regs: seq<Register>
    ghost var gc: Copying        // the collection in progress, or the last one

    ghost predicate Shape()
      reads this
    {
      && mem.Length == 1 + 2 * heapSize
      && (heapOrg == 1 || heapOrg == 1 + heapSize)
      && heapEnd == heapOrg + heapSize
    }

    /** Holds between collections. */
    ghost predicate Valid()
      reads this, mem, globals
    {
      && Shape()
      && heapOrg <= heap <= heapEnd
      && SpaceOk(mem[..], blocks, heapOrg, heap)
      && Distinct(Locations(regs)) && InRange(regs, globals.Length)
      && RootsIn(Roots(globals[..], regs), heapOrg, heap)
    }

    /** Holds while a collection is copying. */
    ghost predicate Collecting(scan: nat, raw: nat)
      reads this, mem
    {
      && Shape()
      && gc.ns == heapOrg && gc.size == heapSize && heap == heapOrg + |gc.order|
      && Inv(gc, mem[..], blocks, scan, raw)
    }

    /** Take the next cell of the new space and copy the cell at `x` into it.  Array
        cells are copied this way too: their block stays where it is. */
    method CopyOut(x: int) returns (nw: int)
      requires 0 < x < mem.Length && 0 < heap < heapEnd <= mem.Length && x != heap
      modifies this`heap, mem
      ensures nw == old(heap) && heap == nw + 1
      ensures mem[..] == Forwarded(old(mem[..]), x, nw)
    {
      nw := heap;
      if nw >= heapEnd {
        assert false;  // ran out of storage
      }
      heap := nw + 1;
      mem[nw] := mem[x];
      mem[x] := mem[x].(mark := true, w0 := nw);
    }

    lemma CollectingBounds(scan: nat, raw: nat)
      requires Collecting(scan, raw)
      ensures 0 < gc.ns && heap == gc.ns + |gc.order| <= mem.Length && |gc.order| <= gc.size
    {
      hide Inv;
      SpaceBounds(gc, mem[..], blocks, scan, raw);
    }

    method GcRelocate(x: int, ghost scan: nat, ghost raw: nat) returns (nw: int)
      requires Collecting(scan, raw) && raw <= |gc.order|
      requires x == 0 || (gc.lo <= x < gc.hi && Reachable(gc.m0, gc.b0, gc.roots, x))
      modifies this`heap, this`gc, mem
      ensures Collecting(scan, raw) && Continues(old(gc), gc)
      ensures nw == Move(gc.fwd, x) && (x == 0 || x in gc.fwd) && old(heap) <= heap
      ensures forall a :: gc.ns <= a < old(heap) ==> mem[a] == old(mem[a])
    {
      hide Inv, Reachable, Forwarded;
      if x == 0 {
        InvZero(gc, mem[..], blocks, scan, raw);
        return 0;
      }
      MarkIsForwarded(gc, mem[..], blocks, scan, raw, x);
      if mem[x].mark {
        return mem[x].w0;
      }
      CopyOne(gc, mem[..], blocks, scan, raw, x);
      ForwardedFrame(mem[..], x, heap, gc.ns);
      nw := CopyOut(x);
      gc := Copied(gc, x);
    }

    /** The first `done` protected locations are relocated; nothing else has changed. */
    ghost predicate ScanningRegisters(c0: Copying, g0: seq<int>, all: seq<nat>, done: nat)
      reads this, mem, globals
    {
      && Collecting(0, 0) && (c0 == gc || Continues(c0, gc))
      && RootsDone(gc, globals[..], all, done) && |g0| == globals.Length
      && forall a :: 0 <= a < globals.Length && a !in all ==> globals[a] == g0[a]
    }

    /** Relocate what the k-th protected location holds. */
    method RelocateLocation(a: nat, ghost c0: Copying, ghost g0: seq<int>, ghost all: seq<nat>, ghost k: nat)
      requires ScanningRegisters(c0, g0, all, k) && k < |all| && Distinct(all) && a == all[k]
      modifies this`heap, this`gc, mem, globals
      ensures ScanningRegisters(c0, g0, all, k + 1)
    {
      hide Inv, Reachable, Start;
      ghost var before, g := gc, globals[..];
      InvZero(gc, mem[..], blocks, 0, 0);
      RootToCopy(gc, k);
      var t := GcRelocate(globals[a], 0, 0);
      InvZero(gc, mem[..], blocks, 0, 0);
      RootsStep(before, gc, g, all, k);
      ContinuesTrans(c0, before, gc);
      globals[a] := t;
      assert globals[..] == g[all[k] := t];
    }

    /** One entry of the list of protected registers; `done` locations precede it. */
    method ScanRegister(reg: Register, ghost c0: Copying, ghost g0: seq<int>, ghost all: seq<nat>, ghost done: nat)
      requires ScanningRegisters(c0, g0, all, done) && Distinct(all)
      requires done + reg.length <= |all| && all[done..done + reg.length] == Span(reg)
      modifies this`heap, this`gc, mem, globals
      ensures ScanningRegisters(c0, g0, all, done + reg.length)
    {
      hide ScanningRegisters, Distinct;
      for j := 0 to reg.length
        invariant ScanningRegisters(c0, g0, all, done + j)
      {
        assert all[done + j] == all[done..done + reg.length][j] == reg.location + j;
        RelocateLocation(reg.location + j, c0, g0, all, done + j);
      }
    }

    /** Relocate every protected location, once. */
    method ScanRegisters(ghost all: seq<nat>)
      requires ScanningRegisters(gc, globals[..], all, 0) && all == Locations(regs) && Distinct(all)
      modifies this`heap, this`gc, mem, globals
      ensures ScanningRegisters(old(gc), old(globals[..]), all, |all|)
    {
      hide ScanningRegisters, Distinct;
      ghost var c0, g0 := gc, globals[..];
      var reg := regs;
      ghost var done := 0;
      while reg != []
        invariant done + |Locations(reg)| == |all| && all[done..] == Locations(reg)
        invariant ScanningRegisters(c0, g0, all, done)
      {
        ghost var n := reg[0].length;
        assert all[done..done + n] == all[done..][..n] == Span(reg[0]);
        ScanRegister(reg[0], c0, g0, all, done);
        assert all[done..][n..] == all[done + n..];
        reg := reg[1..];
        done := done + n;
      }
    }

    /** The array copied to `ptr` is being scanned and its first `j` elements are done. */
    ghost predicate ScanningArray(c0: Copying, scan: nat, ptr: int, id: int, j: nat)
      reads this, mem
    {
      && Collecting(scan, scan + 1) && Continues(c0, gc)
      && scan < |c0.order| && ptr == c0.ns + scan < heap <= mem.Length
      && 0 < ptr && 0 <= c0.order[scan] < |c0.m0| && mem[ptr] == c0.m0[c0.order[scan]]
      && LispArrayAt(gc, gc.order[scan], id) && id in c0.b0 && BlockDone(gc, blocks, id, j)
    }

    /** Relocate one element of the lisp array whose copy is being scanned. */
    method RelocateElement(id: int, j: nat, ghost c0: Copying, ghost scan: nat, ghost ptr: int)
      requires ScanningArray(c0, scan, ptr, id, j) && id in c0.b0 && j < |c0.b0[id]|
      modifies this`heap, this`gc, this`blocks, mem
      ensures ScanningArray(c0, scan, ptr, id, j + 1) && old(heap) <= heap
    {
      hide Inv, Reachable, BlockDone, LispArrayAt;
      ghost var before := gc;
      BlockNext(gc, blocks, id, j);
      ElementToCopy(gc, mem[..], blocks, scan, id, j);
      CollectingBounds(scan, scan + 1);
      var t := GcRelocate(blocks[id][j], scan, scan + 1);
      LispArrayStays(before, gc, gc.order[scan], id);
      CollectingBounds(scan, scan + 1);
      PokeElement(gc, mem[..], blocks, scan, id, blocks[id][j := t]);
      BlockStep(before, gc, blocks, id, j);
      ContinuesTrans(c0, before, gc);
      blocks := blocks[id := blocks[id][j := t]];
    }

    /** Relocate the elements of the lisp array whose copy is at `ptr`. */
    method ArrayGcScan(ptr: nat, ghost scan: nat)
      requires Collecting(scan, scan + 1) && ptr == gc.ns + scan
      requires CellOpen(gc, mem[..], blocks, scan) && gc.m0[gc.order[scan]].kind == LispArray
      modifies this`heap, this`gc, this`blocks, mem
      ensures Collecting(scan, scan + 1) && Continues(old(gc), gc)
      ensures old(heap) <= heap && CellDone(gc, mem[..], blocks, scan)
    {
      ghost var c0 := gc;
      var id, dim := mem[ptr].w1, mem[ptr].w0;
      StartArray(ptr, scan);
      hide ScanningArray;
      for j := 0 to dim
        invariant ScanningArray(c0, scan, ptr, id, j) && old(heap) <= heap
      {
        RelocateElement(id, j, c0, scan, ptr);
      }
      EndArray(c0, scan, ptr, id);
    }

    lemma StartArray(ptr: nat, scan: nat)
      requires Collecting(scan, scan + 1) && ptr == gc.ns + scan
      requires CellOpen(gc, mem[..], blocks, scan) && gc.m0[gc.order[scan]].kind == LispArray
      ensures 0 < ptr < mem.Length && ScanningArray(gc, scan, ptr, mem[ptr].w1, 0)
      ensures mem[ptr].w1 in gc.b0 && mem[ptr].w0 == |gc.b0[mem[ptr].w1]|
    {
      hide Inv, Reachable, BlockDone, LispArrayAt;
      LispArrayIs(gc, mem[..], blocks, scan);
      CollectingBounds(scan, scan + 1);
    }

    lemma EndArray(c0: Copying, scan: nat, ptr: int, id: int)
      requires id in c0.b0 && ScanningArray(c0, scan, ptr, id, |c0.b0[id]|)
      ensures Collecting(scan, scan + 1) && Continues(c0, gc) && CellDone(gc, mem[..], blocks, scan)
    {
      hide Inv, Reachable, BlockDone, LispArrayAt, CellDone;
      CollectingBounds(scan, scan + 1);
      assert 0 < gc.order[scan] by { InvOrder(gc, mem[..], blocks, scan, scan + 1); }
      BlockFinished(gc, mem[..], blocks, scan, id);
    }

    /** Relocate the first word of a copied cons or closure. */
    method RelocateCar(ptr: nat, ghost scan: nat)
      requires Collecting(scan, scan + 1) && Holding(gc, scan, ptr) && ptr < heap
      requires mem[ptr] == gc.m0[gc.order[scan]] && (mem[ptr].kind == Cons || mem[ptr].kind == Closure)
      modifies this`heap, this`gc, mem
      ensures Collecting(scan, scan + 1) && Continues(old(gc), gc) && old(heap) <= heap
      ensures old(mem[ptr].w0) == 0 || old(mem[ptr].w0) in gc.fwd
      ensures mem[ptr] == old(mem[ptr]).(w0 := Move(gc.fwd, old(mem[ptr].w0)))
    {
      hide Inv, Reachable;
      FieldToCopy(gc, mem[..], blocks, scan, 0);
      CollectingBounds(scan, scan + 1);
      ghost var before := gc;
      var t := GcRelocate(mem[ptr].w0, scan, scan + 1);
      ContinuesTrans(before, gc, gc);
      PokeCell(gc, mem[..], blocks, scan, mem[ptr].(w0 := t));
      ghost var m := mem[..];
      mem[ptr] := mem[ptr].(w0 := t);
      assert mem[..] == m[ptr := m[ptr].(w0 := t)];
    }

    /** Relocate the second word of one, or the value of a symbol. */
    method RelocateCdr(ptr: nat, ghost scan: nat)
      requires Collecting(scan, scan + 1) && Holding(gc, scan, ptr) && ptr < heap
      requires mem[ptr].kind == gc.m0[gc.order[scan]].kind && mem[ptr].w1 == gc.m0[gc.order[scan]].w1
      requires mem[ptr].kind == Cons || mem[ptr].kind == Closure || mem[ptr].kind == Symbol
      modifies this`heap, this`gc, mem
      ensures Collecting(scan, scan + 1) && Continues(old(gc), gc) && old(heap) <= heap
      ensures old(mem[ptr].w1) == 0 || old(mem[ptr].w1) in gc.fwd
      ensures mem[ptr] == old(mem[ptr]).(w1 := Move(gc.fwd, old(mem[ptr].w1)))
    {
      hide Inv, Reachable;
      CollectingBounds(scan, scan + 1);
      FieldToCopy(gc, mem[..], blocks, scan, if mem[ptr].kind == Symbol then 0 else 1);
      ghost var before := gc;
      var t := GcRelocate(mem[ptr].w1, scan, scan + 1);
      ContinuesTrans(before, gc, gc);
      PokeCell(gc, mem[..], blocks, scan, mem[ptr].(w1 := t));
      ghost var m := mem[..];
      mem[ptr] := mem[ptr].(w1 := t);
      assert mem[..] == m[ptr := m[ptr].(w1 := t)];
    }

    /** Forward the two words of a cons or closure. */
    method ScanPair(ptr: nat, ghost scan: nat)
      requires Collecting(scan, scan + 1) && CellOpen(gc, mem[..], blocks, scan) && ptr == gc.ns + scan < heap
      requires mem[ptr].kind == Cons || mem[ptr].kind == Closure
      modifies this`heap, this`gc, mem
      ensures Collecting(scan, scan + 1) && Continues(old(gc), gc) && old(heap) <= heap
      ensures CellDone(gc, mem[..], blocks, scan)
    {
      hide Inv, Reachable, Scanned;
      ghost var c0, cell := gc, mem[ptr];
      RelocateCar(ptr, scan);
      ghost var c1 := gc;
      RelocateCdr(ptr, scan);
      ContinuesTrans(c0, c1, gc);
      InvZero(gc, mem[..], blocks, scan, scan + 1);
      assert Move(gc.fwd, cell.w0) == Move(c1.fwd, cell.w0);
      FieldsDone(gc, mem[..], blocks, scan, cell);
    }

    /** Forward the value of a symbol. */
    method ScanSymbol(ptr: nat, ghost scan: nat)
      requires Collecting(scan, scan + 1) && CellOpen(gc, mem[..], blocks, scan) && ptr == gc.ns + scan < heap
      requires mem[ptr].kind == Symbol
      modifies this`heap, this`gc, mem
      ensures Collecting(scan, scan + 1) && Continues(old(gc), gc) && old(heap) <= heap
      ensures CellDone(gc, mem[..], blocks, scan)
    {
      hide Inv, Reachable, Scanned;
      ghost var cell := mem[ptr];
      RelocateCdr(ptr, scan);
      FieldsDone(gc, mem[..], blocks, scan, cell);
    }

    method ScanCell(ptr: nat, ghost scan: nat)
      requires Collecting(scan, scan) && scan < |gc.order| && ptr == gc.ns + scan
      modifies this`heap, this`gc, this`blocks, mem
      ensures Collecting(scan + 1, scan + 1) && Continues(old(gc), gc) && old(heap) <= heap
    {
      hide Inv, Reachable, CellDone, Continues;
      CollectingBounds(scan, scan);
      OpenCell(gc, mem[..], blocks, scan);
      ContinuesTrans(gc, gc, gc);
      match mem[ptr].kind {
        case Cons | Closure =>
          ScanPair(ptr, scan);
        case Symbol =>
          ScanSymbol(ptr, scan);
        case LispArray =>
          ArrayGcScan(ptr, scan);
        case _ =>
          AtomDone(gc, mem[..], blocks, scan);
      }
      CloseCell(gc, mem[..], blocks, scan);
    }

    /** Scan the copies in order until the scan catches up with the allocation pointer. */
    method ScanNewspace(newspace: nat)
      requires Collecting(0, 0) && newspace == gc.ns
      modifies this`heap, this`gc, this`blocks, mem
      ensures Collecting(|gc.order|, |gc.order|) && (gc == old(gc) || Continues(old(gc), gc))
    {
      hide Inv, Continues;
      ghost var c0 := gc;
      CollectingBounds(0, 0);
      var ptr := newspace;
      while ptr < heap
        invariant newspace == gc.ns == c0.ns && newspace <= ptr <= heap && gc.size == c0.size
        invariant Collecting(ptr - newspace, ptr - newspace) && (gc == c0 || Continues(c0, gc))
        decreases newspace + c0.size - ptr
      {
        ghost var before := gc;
        CollectingBounds(ptr - newspace, ptr - newspace);
        ScanCell(ptr, ptr - newspace);
        ContinuesTrans(c0, before, gc);
        ptr := ptr + 1;
        CollectingBounds(ptr - newspace, ptr - newspace);
      }
    }

    method ArrayGcFree(ptr: nat)
      requires 0 < ptr < mem.Length && OwnsBlock(mem[ptr]) && mem[ptr].w1 in blocks
      modifies this`blocks, mem
      ensures blocks == old(blocks) - {old(mem[ptr].w1)}
      ensures mem[..] == old(mem[..])[ptr := old(mem[ptr]).(w1 := 0)]
    {
      blocks := blocks - {mem[ptr].w1};
      mem[ptr] := mem[ptr].(w1 := 0);
    }

    /** Free the block of every array that was not copied, each exactly once. */
    method FreeOldspace(space: nat, end: nat)
      requires OldSide(gc, mem[..]) && SpaceOk(gc.m0, gc.b0, gc.lo, gc.hi) && blocks.Keys == gc.b0.Keys
      requires space == gc.lo && end == gc.hi
      modifies this`blocks, mem
      ensures forall a :: 0 <= a < mem.Length && !(space <= a < end) ==> mem[a] == old(mem[a])
      ensures blocks == old(blocks) - DeadBlocks(gc, end)
    {
      hide *;
      OldBounds(gc, mem[..]);
      ghost var m1, b1 := mem[..], blocks;
      NothingDeadYet(gc);
      for ptr := space to end
        invariant end <= mem.Length && |gc.m0| == mem.Length
        invariant forall a :: 0 <= a < mem.Length && !(space <= a < ptr) ==> mem[a] == m1[a]
        invariant blocks == b1 - DeadBlocks(gc, ptr)
      {
        OldCell(gc, m1, ptr);
        DeadStep(gc, b1, ptr);
        if !mem[ptr].mark && OwnsBlock(mem[ptr]) {
          ArrayGcFree(ptr);
        }
      }
    }

    method GetNewspace() returns (newspace: nat)
      requires Shape()
      modifies this`heap, this`heapOrg, this`heapEnd
      ensures Shape() && newspace == heap == heapOrg
      ensures heapOrg != old(heapOrg) || heapSize == 0
    {
      newspace := if heapOrg == 1 then 1 + heapSize else 1;
      heap := newspace;
      heapOrg := heap;
      heapEnd := heap + heapSize;
    }

    /** Copy everything reachable from the protected registers. */
    method CopyLive(newspace: nat, ghost all: seq<nat>)
      requires Collecting(0, 0) && newspace == gc.ns && all == Locations(regs)
      requires Distinct(all) && RootsDone(gc, globals[..], all, 0)
      modifies this`heap, this`gc, this`blocks, mem, globals
      ensures Collecting(|gc.order|, |gc.order|) && (gc == old(gc) || Continues(old(gc), gc))
      ensures RootsDone(gc, globals[..], all, |all|)
      ensures forall a :: 0 <= a < globals.Length && a !in all ==> globals[a] == old(globals[a])
    {
      hide Inv, RootsDone, Distinct, Continues;
      ghost var c0 := gc;
      ScanRegisters(all);
      ghost var c1 := gc;
      InvZero(c1, mem[..], blocks, 0, 0);
      ScanNewspace(newspace);
      InvZero(gc, mem[..], blocks, |gc.order|, |gc.order|);
      RootsStable(c1, gc, globals[..], all);
      ContinuesTrans(c0, c1, gc);
    }

    /** Switch spaces and start a record of the collection. */
    method BeginCollection() returns (oldspace: nat, end: nat, newspace: nat)
      requires Valid()
      modifies this`heap, this`heapOrg, this`heapEnd, this`gc
      ensures Collecting(0, 0) && RootsDone(gc, globals[..], Locations(regs), 0) && newspace == gc.ns
      ensures gc.m0 == mem[..] && gc.b0 == blocks && gc.roots == Roots(globals[..], regs)
      ensures oldspace == gc.lo == old(heapOrg) && end == gc.hi == old(heap)
    {
      hide Inv, Start, SpaceOk, RootsDone, Distinct, RootsIn;
      oldspace := heapOrg;
      end := heap;
      newspace := GetNewspace();
      gc := Copying(mem[..], blocks, Roots(globals[..], regs), oldspace, end, newspace, heapSize, [], map[]);
      BeginInv(gc);
      StartOfRoots(gc, globals[..], regs);
    }

    /** Free what was not copied. */
    method EndCollection(oldspace: nat, end: nat)
      requires Collecting(|gc.order|, |gc.order|) && oldspace == gc.lo && end == gc.hi
      requires RootsDone(gc, globals[..], Locations(regs), |Locations(regs)|)
      requires Distinct(Locations(regs)) && InRange(regs, globals.Length)
      modifies this`blocks, mem
      ensures Valid() && GraphCopied(gc, mem[..], blocks, Roots(globals[..], regs)) && Tracks(gc)
      ensures heap - heapOrg == |gc.order| == |gc.fwd| <= end - oldspace && Start(gc)
      ensures blocks.Keys == OwnedBlocks(gc.m0, gc.fwd.Keys)
    {
      hide Inv, Start, SpaceOk, RootsDone, Distinct, InRange, GraphCopied, Tracks, OwnedBlocks, RootsIn, OldSide;
      ghost var m1, b1 := mem[..], blocks;
      CollectingBounds(|gc.order|, |gc.order|);
      StartOf(gc, m1, b1, |gc.order|, |gc.order|);
      AfterScan(gc, m1, b1, globals[..], regs);
      FreeOldspace(oldspace, end);
      EndOfCollection(gc, m1, b1, mem[..], blocks, Roots(globals[..], regs));
    }

    /** A whole collection.  The record it leaves in `gc` describes the graph before it. */
    method GcStopAndCopy()
      requires Valid()
      modifies this, mem, globals
      ensures Valid() && regs == old(regs)
      ensures gc.m0 == old(mem[..]) && gc.b0 == old(blocks) && gc.roots == Roots(old(globals[..]), regs)
      ensures Start(gc) && gc.lo == old(heapOrg) && gc.hi == old(heap)
      ensures GraphCopied(gc, mem[..], blocks, Roots(globals[..], regs))
      ensures gc.ns == heapOrg && Tracks(gc) && heap - heapOrg == |gc.order| == |gc.fwd| <= old(heap - heapOrg)
      ensures blocks.Keys == OwnedBlocks(gc.m0, gc.fwd.Keys)
      ensures forall a :: 0 <= a < globals.Length && a !in Locations(regs) ==> globals[a] == old(globals[a])
    {
      hide Inv, RootsDone, Distinct, GraphCopied, Tracks, OwnedBlocks, SpaceOk, RootsIn, InRange, Start;
      var oldspace, end, newspace := BeginCollection();
      CopyLive(newspace, Locations(regs));
      EndCollection(oldspace, end);
    }

    // ----- allocation and update between collections -----

    constructor (heapSize: nat, nglobals: nat)
      ensures Valid() && heap == heapOrg && regs == [] && fresh(mem) && fresh(globals)
    {
      this.heapSize := heapSize;
      mem := new Cell[1 + 2 * heapSize](_ => Cell(false, FreeCell, 0, 0));
      globals := new int[nglobals](_ => 0);
      heap, heapOrg, heapEnd := 1, 1, 1 + heapSize;
      blocks, regs := map[], [];
      new;
      assert OwnedBlocks(mem[..], {}) == {};
    }

    /** A new cell of a plain kind: the next one of the space in use, or 0 when the storage
        ran out. */
    method NewFilled(kind: Kind, w0: int, w1: int, x: nat, y: nat) returns (z: nat)
      requires Valid() && Plain(kind) && (x == 0 || heapOrg <= x < heap) && (y == 0 || heapOrg <= y < heap)
      modifies this`heap, mem
      ensures Valid() && (z == 0 <==> old(heap) == heapEnd)
      ensures z == 0 ==> heap == old(heap) && mem[..] == old(mem[..])
      ensures z != 0 ==> z == old(heap) && heap == z + 1 && z < mem.Length && mem[..] == old(mem[..])[z := Made(kind, w0, w1, x, y)]
      ensures z != 0 ==> mem[z].kind == kind && !mem[z].mark
      ensures z != 0 && kind in {Cons, Closure} ==> mem[z].w0 == x && mem[z].w1 == y
      ensures z != 0 && kind == Symbol ==> mem[z].w0 == w0 && mem[z].w1 == x
      ensures z != 0 && (kind == Flonum || kind.Subr?) ==> mem[z].w0 == w0 && mem[z].w1 == w1
    {
      hide SpaceOk, RootsIn, Distinct, InRange, Made, Plain;
      if heap >= heapEnd {
        return 0;
      }
      ghost var m := mem[..];
      z := heap;
      heap := z + 1;
      mem[z] := Made(kind, w0, w1, x, y);
      assert mem[..] == m[z := Made(kind, w0, w1, x, y)];
      SpaceGrows(m, blocks, heapOrg, z, kind, w0, w1, x, y);
      RootsInMore(Roots(globals[..], regs), heapOrg, z);
    }

    /** siod_cons */
    method ConsCell(x: nat, y: nat) returns (z: nat)
      requires Valid() && (x == 0 || heapOrg <= x < heap) && (y == 0 || heapOrg <= y < heap)
      modifies this`heap, mem
      ensures Valid() && (z == 0 <==> old(heap) == heapEnd)
      ensures z == 0 ==> heap == old(heap) && mem[..] == old(mem[..])
      ensures z != 0 ==> z == old(heap) && heap == z + 1 && mem[..] == old(mem[..])[z := Cell(false, Cons, x, y)]
    {
      hide *;
      ConsIsPlain(x, y);
      z := NewFilled(Cons, 0, 0, x, y);
    }

    /** siod_cons_array, where malloc returned `id` for the array's block. */
    method ArCons(kind: Kind, n: nat, id: int) returns (z: nat)
      requires Valid() && kind in {String, DoubleArray, LongArray, LispArray, ByteArray} && id !in blocks
      modifies this`heap, this`blocks, mem
      ensures Valid() && (z == 0 <==> old(heap) == heapEnd)
      ensures z == 0 ==> heap == old(heap) && mem[..] == old(mem[..]) && blocks == old(blocks)
      ensures z != 0 ==> z == old(heap) && heap == z + 1 && z < mem.Length
      ensures z != 0 ==> mem[..] == old(mem[..])[z := Cell(false, kind, n, id)]
      ensures z != 0 ==> blocks == old(blocks)[id := Initial(kind, n)]
    {
      hide SpaceOk, RootsIn, Distinct, InRange;
      z := ConsCell(0, 0);
      if z != 0 {
        ghost var m := mem[..];
        SpaceArray(m, blocks, heapOrg, heap, z, Cell(false, kind, n, id));
        blocks := blocks[id := Initial(kind, n)];
        mem[z] := Cell(false, kind, n, id);
        assert mem[..] == m[z := Cell(false, kind, n, id)];
      }
    }

    /** Store words into a cell in use that owns no block. */
    method SetWords(x: nat, c: Cell)
      requires Valid() && heapOrg <= x < heap && !OwnsBlock(mem[x])
      requires !OwnsBlock(c) && CellOk(c, blocks, Interval(heapOrg, heap))
      modifies mem
      ensures Valid() && mem[..] == old(mem[..])[x := c]
    {
      hide SpaceOk, RootsIn, Distinct, InRange, OwnsBlock, CellOk, Interval;
      ghost var m := mem[..];
      mem[x] := c;
      assert mem[..] == m[x := c];
      SpaceSet(m, blocks, heapOrg, heap, x, c);
    }

    /** siod_setcar and siod_setcdr on a cons. */
    method SetPair(x: nat, car: nat, cdr: nat)
      requires Valid() && heapOrg <= x < heap && mem[x].kind == Cons
      requires (car == 0 || heapOrg <= car < heap) && (cdr == 0 || heapOrg <= cdr < heap)
      modifies mem
      ensures Valid() && mem[..] == old(mem[..])[x := Cell(false, Cons, car, cdr)]
    {
      hide SpaceOk, RootsIn, Distinct, InRange, CellOk;
      PairOk(car, cdr, blocks, Interval(heapOrg, heap));
      SetWords(x, Cell(false, Cons, car, cdr));
    }

    /** siod_setvar on the global value of a symbol. */
    method SetValueCell(x: nat, v: nat)
      requires Valid() && heapOrg <= x < heap && mem[x].kind == Symbol && (v == 0 || heapOrg <= v < heap)
      modifies mem
      ensures Valid() && mem[..] == old(mem[..])[x := old(mem[x]).(w1 := v)]
    {
      hide SpaceOk, RootsIn, Distinct, InRange, CellOk;
      SpaceCell(mem[..], blocks, heapOrg, heap, x);
      SymbolOk(mem[x], v, blocks, Interval(heapOrg, heap));
      SetWords(x, mem[x].(w1 := v));
    }

    /** siod_aset1 on a lisp array. */
    method SetElement(x: nat, j: nat, v: nat)
      requires Valid() && heapOrg <= x < heap && mem[x].kind == LispArray && j < mem[x].w0 && (v == 0 || heapOrg <= v < heap)
      modifies this`blocks
      ensures Valid() && mem[x].w1 in old(blocks) && |old(blocks)[mem[x].w1]| == mem[x].w0
      ensures blocks == old(blocks)[mem[x].w1 := old(blocks)[mem[x].w1][j := v]]
    {
      hide SpaceOk, RootsIn, Distinct, InRange;
      SpacePoke(mem[..], blocks, heapOrg, heap, x, j, v);
      blocks := blocks[mem[x].w1 := blocks[mem[x].w1][j := v]];
    }

    /** Assign a C variable. */
    method SetGlobal(a: nat, v: nat)
      requires Valid() && a < globals.Length && (v == 0 || heapOrg <= v < heap)
      modifies globals
      ensures Valid() && globals[..] == old(globals[..])[a := v]
    {
      hide SpaceOk, RootsIn, Distinct, InRange;
      ghost var g := globals[..];
      RootsSet(g, regs, a, v, heapOrg, heap);
      globals[a] := v;
      assert globals[..] == g[a := v];
    }

    /** siod_gc_protect_n: the collector is to treat these C variables, none of which is
        protected yet, as roots. */
    method GcProtectN(location: nat, n: nat)
      requires Valid() && location + n <= globals.Length
      requires forall a :: location <= a < location + n ==>
                 a !in Locations(regs) && (globals[a] == 0 || heapOrg <= globals[a] < heap)
      modifies this`regs
      ensures Valid() && regs == [Register(location, n)] + old(regs)
    {
      hide SpaceOk, RootsIn, Distinct, InRange;
      RootsAdded(globals[..], regs, Register(location, n), heapOrg, heap);
      regs := [Register(location, n)] + regs;
    }
  }
}
