/** Steps of a program that works on the protected C variables, and what it can tell of
    storage; both collectors are driven by them. */
module Programs {
  import opened Cells
  import opened Registers

  /** The numbers a, b and c count protected locations.  A new cell of a plain kind takes
      the pointers it holds from b and c; `id` is what malloc returned for a block. */
  datatype Op =
    | Make(a: nat, kind: Kind, w0: int, w1: int, b: nat, c: nat)
    | MakeArray(a: nat, kind: Kind, size: nat, id: int)
    | SetCons(a: nat, b: nat, c: nat)
    | SetValue(a: nat, b: nat)
    | SetElement(a: nat, j: nat, b: nat)
    | Copy(a: nat, b: nat)
    | Protect(location: nat, n: nat)
    | Collect

  /** What there is at one time; `cells` are the cells in use, reached or not. */
  datatype Snapshot = Snapshot(mem: seq<Cell>, blocks: Blocks, globals: seq<int>, regs: seq<Register>, cells: set<int>)

  /** The pointer in the i-th protected location. */
  function At(s: Snapshot, i: nat): int {
    if i < |Roots(s.globals, s.regs)| then Roots(s.globals, s.regs)[i] else 0
  }

  /** Every block has its owner in use. */
  ghost predicate Owned(s: Snapshot) {
    s.blocks.Keys == OwnedBlocks(s.mem, s.cells)
  }

  /** Everything the roots led to has its contents and data. */
  ghost predicate LiveKept(s: Snapshot, t: Snapshot, roots: seq<int>) {
    forall x :: Reachable(s.mem, s.blocks, roots, x) ==> CellKept(s.mem, s.blocks, t.mem, t.blocks, x)
  }

  /** A collection: the roots led to the cells S, as many are left in use, and the blocks
      left are exactly those that the cells in S own. */
  ghost predicate Frees(s: Snapshot, t: Snapshot, roots: seq<int>, S: set<int>) {
    Reached(s.mem, s.blocks, roots, S) && |t.cells| == |S| && t.blocks.Keys == OwnedBlocks(s.mem, S)
  }

  /** A block is there after a collection exactly if it belonged to a cell that the roots
      led to. */
  lemma FreesExactly(s: Snapshot, t: Snapshot, roots: seq<int>, S: set<int>)
    requires Frees(s, t, roots, S)
    ensures forall id :: id in t.blocks.Keys <==>
              exists x :: Reachable(s.mem, s.blocks, roots, x) && 0 < x < |s.mem| && OwnsBlock(s.mem[x]) && s.mem[x].w1 == id
  {
    hide Reachable, OwnsBlock;
    forall x | Reachable(s.mem, s.blocks, roots, x) && 0 < x < |s.mem| && OwnsBlock(s.mem[x])
      ensures s.mem[x].w1 in t.blocks.Keys
    {
      assert x in S;
    }
  }

  /** The operands of a step that makes a cell are locations, and of the right kind. */
  predicate Operands(op: Op, s: Snapshot)
    requires op.Make? || op.MakeArray?
  {
    var n := |Locations(s.regs)|;
    match op
    case Make(a, kind, _, _, b, c) => a < n && b < n && c < n && Plain(kind)
    case MakeArray(a, kind, _, id) => a < n && id !in s.blocks && kind in {String, DoubleArray, LongArray, LispArray, ByteArray}
  }

  /** A cell of the kind asked for: a cons or a closure holds two pointers, a symbol the
      address of its name and a pointer, a number or a subr the words given. */
  predicate IsMade(c: Cell, op: Op, s: Snapshot)
    requires op.Make?
  {
    && c.kind == op.kind && !c.mark
    && (op.kind in {Cons, Closure} ==> c.w0 == At(s, op.b) && c.w1 == At(s, op.c))
    && (op.kind == Symbol ==> c.w0 == op.w0 && c.w1 == At(s, op.b))
    && (op.kind == Flonum || op.kind.Subr? ==> c.w0 == op.w0 && c.w1 == op.w1)
  }

  lemma MadeIs(c: Cell, op: Op, s: Snapshot, x: int, y: int)
    requires op.Make? && x == At(s, op.b) && y == At(s, op.c) && c == Made(op.kind, op.w0, op.w1, x, y)
    ensures IsMade(c, op, s)
  {
    hide Made;
  }

  /** The cell `z`, which nothing led to before, is now in use beside the cells `kept`, is
      what it was to be, and stands in location a. */
  ghost predicate Makes(op: Op, s: Snapshot, t: Snapshot, roots: seq<int>, kept: set<int>, z: int)
    requires op.Make? || op.MakeArray?
  {
    && t.regs == s.regs && 0 < z < |t.mem|
    && !Reachable(s.mem, s.blocks, roots, z) && z !in kept && t.cells == kept + {z}
    && op.a < |Locations(s.regs)| && Locations(s.regs)[op.a] < |s.globals|
    && t.globals == s.globals[Locations(s.regs)[op.a] := z]
    && (op.Make? ==> IsMade(t.mem[z], op, s))
    && (op.MakeArray? ==>
          && t.mem[z] == Cell(false, op.kind, op.size, op.id)
          && op.id in t.blocks && t.blocks[op.id] == Initial(op.kind, op.size))
  }

  /** One word has been changed, and nothing else; an operand that is not a location, or not
      of the right kind, makes the step do nothing. */
  predicate Updates(op: Op, s: Snapshot, t: Snapshot)
    requires op.SetCons? || op.SetValue? || op.SetElement? || op.Copy?
  {
    match op
    case SetCons(a, b, c) =>
      var x := At(s, a);
      t == if 0 < x < |s.mem| && s.mem[x].kind == Cons && b < |Locations(s.regs)| && c < |Locations(s.regs)| then
             s.(mem := s.mem[x := Cell(false, Cons, At(s, b), At(s, c))])
           else s
    case SetValue(a, b) =>
      var x := At(s, a);
      t == if 0 < x < |s.mem| && s.mem[x].kind == Symbol && b < |Locations(s.regs)| then
             s.(mem := s.mem[x := s.mem[x].(w1 := At(s, b))])
           else s
    case SetElement(a, j, b) =>
      var x := At(s, a);
      t == if 0 < x < |s.mem| && s.mem[x].kind == LispArray && j < s.mem[x].w0 && b < |Locations(s.regs)|
              && s.mem[x].w1 in s.blocks && j < |s.blocks[s.mem[x].w1]| then
             s.(blocks := s.blocks[s.mem[x].w1 := s.blocks[s.mem[x].w1][j := At(s, b)]])
           else s
    case Copy(a, b) =>
      var l := Locations(s.regs);
      t == if a < |l| && b < |l| && l[a] < |s.globals| then s.(globals := s.globals[l[a] := At(s, b)]) else s
  }

  /** Protecting a C variable starts it off with NIL. */
  predicate AllNil(g: seq<int>, location: nat, n: nat)
    requires location + n <= |g|
  {
    forall i :: location <= i < location + n ==> g[i] == 0
  }

  lemma SymbolOk(c: Cell, v: int, b: Blocks, S: set<int>)
    requires c.kind == Symbol && (v == 0 || v in S) && !c.mark
    ensures CellOk(c.(w1 := v), b, S) && !OwnsBlock(c.(w1 := v))
  {
  }

  lemma PlainIs(kind: Kind)
    requires Plain(kind)
    ensures kind != FreeCell
  {
  }

  lemma ConsIsPlain(x: int, y: int)
    ensures Plain(Cons) && Made(Cons, 0, 0, x, y) == Cell(false, Cons, x, y)
  {
  }

  lemma LiveIs(s: Snapshot, t: Snapshot, u: Snapshot, roots: seq<int>)
    requires LiveKept(s, t, roots) && t.mem == u.mem && t.blocks == u.blocks
    ensures LiveKept(s, u, roots)
  {
    hide Reachable, CellKept;
  }

  lemma NowhereIs(s: Snapshot, i: nat)
    requires i >= |Locations(s.regs)|
    ensures At(s, i) == 0
  {
  }

  lemma OperandsOfMake(op: Op, s: Snapshot)
    requires op.Make?
    ensures var n := |Locations(s.regs)|; Operands(op, s) <==> op.a < n && op.b < n && op.c < n && Plain(op.kind)
  {
  }

  lemma OperandsOfArray(op: Op, s: Snapshot)
    requires op.MakeArray?
    ensures Operands(op, s) <==>
              op.a < |Locations(s.regs)| && op.id !in s.blocks && op.kind in {String, DoubleArray, LongArray, LispArray, ByteArray}
  {
  }

  lemma OwnedIs(s: Snapshot)
    requires s.blocks.Keys == OwnedBlocks(s.mem, s.cells)
    ensures Owned(s)
  {
  }

  lemma MakeIs(op: Op, s: Snapshot, t: Snapshot, roots: seq<int>, kept: set<int>, z: int)
    requires op.Make? && t.regs == s.regs && 0 < z < |t.mem|
    requires !Reachable(s.mem, s.blocks, roots, z) && z !in kept && t.cells == kept + {z}
    requires op.a < |Locations(s.regs)| && Locations(s.regs)[op.a] < |s.globals|
    requires t.globals == s.globals[Locations(s.regs)[op.a] := z]
    requires IsMade(t.mem[z], op, s)
    ensures Makes(op, s, t, roots, kept, z)
  {
  }

  lemma ArrayIs(op: Op, s: Snapshot, t: Snapshot, roots: seq<int>, kept: set<int>, z: int)
    requires op.MakeArray? && t.regs == s.regs && 0 < z < |t.mem|
    requires !Reachable(s.mem, s.blocks, roots, z) && z !in kept && t.cells == kept + {z}
    requires op.a < |Locations(s.regs)| && Locations(s.regs)[op.a] < |s.globals|
    requires t.globals == s.globals[Locations(s.regs)[op.a] := z]
    requires t.mem[z] == Cell(false, op.kind, op.size, op.id)
    requires op.id in t.blocks && t.blocks[op.id] == Initial(op.kind, op.size)
    ensures Makes(op, s, t, roots, kept, z)
  {
  }

  lemma SetConsIs(a: nat, b: nat, c: nat, s: Snapshot, t: Snapshot, x: nat)
    requires x == At(s, a) && (x != 0 ==> x < |s.mem|) && t == s.(mem := t.mem)
    requires var n := |Locations(s.regs)|;
             t.mem == if x != 0 && b < n && c < n && s.mem[x].kind == Cons then s.mem[x := Cell(false, Cons, At(s, b), At(s, c))] else s.mem
    ensures Updates(SetCons(a, b, c), s, t)
  {
    hide At;
  }

  lemma SetValueIs(a: nat, b: nat, s: Snapshot, t: Snapshot, x: nat)
    requires x == At(s, a) && (x != 0 ==> x < |s.mem|) && t == s.(mem := t.mem)
    requires t.mem == if x != 0 && b < |Locations(s.regs)| && s.mem[x].kind == Symbol then s.mem[x := s.mem[x].(w1 := At(s, b))] else s.mem
    ensures Updates(SetValue(a, b), s, t)
  {
    hide At;
  }

  lemma SetElementIs(a: nat, j: nat, b: nat, s: Snapshot, t: Snapshot, x: nat)
    requires x == At(s, a) && (x != 0 ==> x < |s.mem|) && t == s.(blocks := t.blocks)
    requires if x != 0 && b < |Locations(s.regs)| && s.mem[x].kind == LispArray && j < s.mem[x].w0 then
               var id := s.mem[x].w1;
               id in s.blocks && |s.blocks[id]| == s.mem[x].w0 && t.blocks == s.blocks[id := s.blocks[id][j := At(s, b)]]
             else t == s
    ensures Updates(SetElement(a, j, b), s, t)
  {
    hide At;
  }

  lemma CopyIs(a: nat, b: nat, s: Snapshot, t: Snapshot)
    requires t == s.(globals := t.globals)
    requires var l := Locations(s.regs);
             if a < |l| && b < |l| then l[a] < |s.globals| && t.globals == s.globals[l[a] := At(s, b)] else t == s
    ensures Updates(Copy(a, b), s, t)
  {
    hide At;
  }
}
