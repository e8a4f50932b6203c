/** `equal?`, `sxhash` and hash tables (src/sliba.c:555-737).  Keys are compared by
    structure in a memory that does not change under them; a table of buckets is then a
    finite map on the structures. */
module HashTables {
  import opened Bytes

  type Ptr = nat

  /** Doubles as far as comparing them goes: NaN equals nothing, not even itself. */
  datatype Double = NaN | Value(v: real)

  datatype Obj =
    | Cons(car: Ptr, cdr: Ptr)
    | Flonum(x: Double)
    | Named(name: seq<byte>, symbol: bool)       // symbols and subrs
    | Octets(code: nat, bytes: seq<byte>)        // strings and byte arrays
    | Longs(longs: seq<nat>)                     // as unsigned words
    | Doubles(doubles: seq<Double>)
    | LispArray(elems: seq<Ptr>)
    | Opaque                                     // closures and the rest

  /** Memory; index 0 is NIL and not used. `rank` shows that there are no cycles. */
  datatype Memory = Memory(cells: seq<Obj>, rank: seq<nat>)

  function Child(o: Obj, i: nat): Ptr
    requires i < Children(o)
  {
    match o
    case Cons(a, b) => if i == 0 then a else b
    case LispArray(e) => e[i]
  }

  function Children(o: Obj): nat {
    match o case Cons(_, _) => 2 case LispArray(e) => |e| case _ => 0
  }

  ghost predicate Acyclic(m: Memory) {
    && |m.cells| == |m.rank| > 0
    && forall p, i :: 0 < p < |m.cells| && 0 <= i < Children(m.cells[p]) ==>
         var c := Child(m.cells[p], i);
         c < |m.cells| && (c > 0 ==> m.rank[c] < m.rank[p])
  }

  /** NIL is below everything. */
  function Rank(m: Memory, p: Ptr): nat
    requires p < |m.cells| == |m.rank|
  {
    if p == 0 then 0 else m.rank[p] + 1
  }

  predicate IsCons(m: Memory, p: Ptr)
    requires p < |m.cells|
  {
    p > 0 && m.cells[p].Cons?
  }

  // ---- equal? ------------------------------------------------------------------------

  predicate Same(x: Double, y: Double) {
    x.Value? && x == y
  }

  predicate SameAll(a: seq<Double>, b: seq<Double>) {
    |a| == |b| && forall j :: 0 <= j < |a| ==> Same(a[j], b[j])
  }

  /** `siod_equal` */
  predicate Equal(m: Memory, a: Ptr, b: Ptr)
    requires Acyclic(m) && a < |m.cells| && b < |m.cells|
    decreases Rank(m, a)
  {
    if a == b then true
    else if a == 0 || b == 0 then false
    else
      match (m.cells[a], m.cells[b])
      case (Cons(p, q), Cons(s, t)) =>
        assert Child(m.cells[a], 0) == p && Child(m.cells[a], 1) == q;
        assert Child(m.cells[b], 0) == s && Child(m.cells[b], 1) == t;
        Equal(m, p, s) && Equal(m, q, t)
      case (Flonum(x), Flonum(y)) => Same(x, y)
      case (Octets(c, s), Octets(d, t)) => c == d && s == t
      case (Longs(s), Longs(t)) => s == t
      case (Doubles(s), Doubles(t)) => SameAll(s, t)
      case (LispArray(s), LispArray(t)) =>
        |s| == |t| && forall j :: 0 <= j < |s| ==>
          assert Child(m.cells[a], j) == s[j] && Child(m.cells[b], j) == t[j];
          Equal(m, s[j], t[j])
      case _ => false
  }

  /** What `equal?` sees of an object: a finite tree, whose leaves are contents where they
      are compared by contents, and cells where only identity counts. */
  datatype Tree =
    | Nothing
    | Pair(left: Tree, right: Tree)
    | Number(x: Double)
    | Bytes(code: nat, bytes: seq<byte>)
    | Words(longs: seq<nat>)
    | Reals(doubles: seq<Double>)
    | Vector(elems: seq<Tree>)
    | Cell(p: Ptr)

  function Unfold(m: Memory, p: Ptr): Tree
    requires Acyclic(m) && p < |m.cells|
    decreases Rank(m, p)
  {
    if p == 0 then Nothing
    else
      match m.cells[p]
      case Cons(a, b) =>
        assert Child(m.cells[p], 0) == a && Child(m.cells[p], 1) == b;
        Pair(Unfold(m, a), Unfold(m, b))
      case Flonum(x) => if x.NaN? then Cell(p) else Number(x)
      case Octets(c, s) => Bytes(c, s)
      case Longs(s) => Words(s)
      case Doubles(s) => if NaN in s then Cell(p) else Reals(s)
      case LispArray(e) =>
        Vector(seq(|e|, i requires 0 <= i < |e| =>
          assert Child(m.cells[p], i) == e[i];
          Unfold(m, e[i])))
      case _ => Cell(p)
  }

  /** `equal?` is equality of the trees, and so an equivalence. */
  lemma {:induction false} EqualIsSameTree(m: Memory, a: Ptr, b: Ptr)
    requires Acyclic(m) && a < |m.cells| && b < |m.cells|
    ensures Equal(m, a, b) <==> Unfold(m, a) == Unfold(m, b)
    decreases Rank(m, a)
  {
    if a != b && a > 0 && b > 0 {
      match (m.cells[a], m.cells[b])
      case (Cons(p, q), Cons(s, t)) =>
        assert Child(m.cells[a], 0) == p && Child(m.cells[a], 1) == q;
        assert Child(m.cells[b], 0) == s && Child(m.cells[b], 1) == t;
        EqualIsSameTree(m, p, s);
        EqualIsSameTree(m, q, t);
      case (LispArray(s), LispArray(t)) =>
        VectorsSame(m, a, b);
      case (Doubles(s), Doubles(t)) =>
        RealsSame(s, t);
      case _ =>
    }
  }

  lemma ElementsBelow(m: Memory, p: Ptr, j: nat)
    requires Acyclic(m) && 0 < p < |m.cells| && m.cells[p].LispArray? && j < |m.cells[p].elems|
    ensures var c := m.cells[p].elems[j]; c < |m.cells| && Rank(m, c) < Rank(m, p)
  {
    assert Child(m.cells[p], j) == m.cells[p].elems[j];
  }

  lemma {:induction false} VectorsSame(m: Memory, a: Ptr, b: Ptr)
    requires Acyclic(m) && a < |m.cells| && b < |m.cells| && a != b && a > 0 && b > 0
    requires m.cells[a].LispArray? && m.cells[b].LispArray?
    ensures Equal(m, a, b) <==> Unfold(m, a) == Unfold(m, b)
    decreases Rank(m, a), 0
  {
    var s, t := m.cells[a].elems, m.cells[b].elems;
    var u, v := Unfold(m, a).elems, Unfold(m, b).elems;
    forall j | 0 <= j < |s| ensures s[j] < |m.cells| && u[j] == Unfold(m, s[j]) {
      ElementsBelow(m, a, j);
    }
    forall j | 0 <= j < |t| ensures t[j] < |m.cells| && v[j] == Unfold(m, t[j]) {
      ElementsBelow(m, b, j);
    }
    if |s| == |t| {
      forall j | 0 <= j < |s| ensures Equal(m, s[j], t[j]) <==> u[j] == v[j] {
        ElementsBelow(m, a, j);
        EqualIsSameTree(m, s[j], t[j]);
      }
      assert Equal(m, a, b) <==> forall j :: 0 <= j < |s| ==> Equal(m, s[j], t[j]);
      assert u == v <==> forall j :: 0 <= j < |s| ==> u[j] == v[j];
    }
  }

  lemma RealsSame(s: seq<Double>, t: seq<Double>)
    ensures SameAll(s, t) <==> NaN !in s && NaN !in t && s == t
  {
    if SameAll(s, t) {
      assert s == t;
    }
  }

  // ---- sxhash -------------------------------------------------------------------------

  function Combine(h1: nat, h2: nat, n: nat): (h: nat)
    requires n > 0
    ensures h < n
  {
    Xor(h1 * 17 + 1, h2) % n
  }

  function Mix(s: seq<nat>, hash: nat, n: nat): (h: nat)
    requires n > 0
    ensures hash < n ==> h < n
  {
    if s == [] then hash else Mix(s[1..], Combine(hash, s[0], n), n)
  }

  function Remainders(s: seq<nat>, n: nat): seq<nat>
    requires n > 0
  {
    seq(|s|, i requires 0 <= i < |s| => s[i] % n)
  }

  /** `U` is the machine's conversion of a double to an unsigned word. */
  type Conversion = Double -> nat

  function Cast(U: Conversion, s: seq<Double>): seq<nat> {
    seq(|s|, i requires 0 <= i < |s| => U(s[i]))
  }

  /** `siod_c_siod_sxhash` */
  function Hash(m: Memory, U: Conversion, n: nat, p: Ptr): (h: nat)
    requires Acyclic(m) && p < |m.cells| && n > 0
    ensures h < n
    decreases Rank(m, p), 1
  {
    if p == 0 then 0
    else
      match m.cells[p]
      case Cons(a, b) =>
        assert Child(m.cells[p], 0) == a && Child(m.cells[p], 1) == b;
        HashSpine(m, U, n, b, Hash(m, U, n, a))
      case Flonum(x) => U(x) % n
      case Named(name, _) => Mix(name, 0, n)
      case Octets(_, s) => Mix(s, 0, n)
      case Longs(s) => Mix(Remainders(s, n), 0, n)
      case Doubles(s) => Mix(Remainders(Cast(U, s), n), 0, n)
      case LispArray(e) => HashElements(m, U, n, p, 0, 0)
      case Opaque => 0
  }

  /** The loop down the CDRs. */
  function HashSpine(m: Memory, U: Conversion, n: nat, p: Ptr, hash: nat): (h: nat)
    requires Acyclic(m) && p < |m.cells| && n > 0
    ensures h < n
    decreases Rank(m, p), 2
  {
    if IsCons(m, p) then
      var c := m.cells[p];
      assert Child(c, 0) == c.car && Child(c, 1) == c.cdr;
      HashSpine(m, U, n, c.cdr, Combine(hash, Hash(m, U, n, c.car), n))
    else Combine(hash, Hash(m, U, n, p), n)
  }

  function HashElements(m: Memory, U: Conversion, n: nat, p: Ptr, j: nat, hash: nat): (h: nat)
    requires Acyclic(m) && 0 < p < |m.cells| && n > 0 && hash < n
    requires m.cells[p].LispArray? && j <= |m.cells[p].elems|
    ensures h < n
    decreases Rank(m, p), 0, |m.cells[p].elems| - j
  {
    var e := m.cells[p].elems;
    if j == |e| then hash
    else
      assert Child(m.cells[p], j) == e[j];
      HashElements(m, U, n, p, j + 1, Combine(hash, Hash(m, U, n, e[j]), n))
  }

  /** The hashes of objects without parts, and what the combining macro does to two. */
  lemma AtomHashes(m: Memory, U: Conversion, n: nat, p: Ptr, s: seq<nat>, b: nat)
    requires Acyclic(m) && p < |m.cells| && n > 0
    ensures p == 0 || m.cells[p].Opaque? ==> Hash(m, U, n, p) == 0
    ensures p != 0 && m.cells[p].Flonum? ==> Hash(m, U, n, p) == U(m.cells[p].x) % n
    ensures p != 0 && m.cells[p].Named? ==> Hash(m, U, n, p) == Mix(m.cells[p].name, 0, n)
    ensures p != 0 && m.cells[p].Octets? ==> Hash(m, U, n, p) == Mix(m.cells[p].bytes, 0, n)
    ensures Mix(s + [b], 0, n) == Combine(Mix(s, 0, n), b, n) && Mix([], 0, n) == 0
  {
    hide Combine;
    MixLast(s, b, 0, n);
  }

  /** So with a table of 100 entries the string `ab` has the hash 39. */
  lemma HashOfAb()
    ensures Mix([97, 98], 0, 100) == 39
  {
    hide Xor;
    XorStep(0, 48);
    XorStep(1, 97);
    Xor1633();
    assert Combine(0, 97, 100) == 96 && Combine(96, 98, 100) == 39;
    assert [97, 98][1..] == [98] && [98][1..] == [];
  }

  lemma Xor1633()
    ensures Xor(1633, 98) == 1539
  {
    hide Xor;
    XorStep(12, 0);
    XorStep(25, 1);
    XorStep(51, 3);
    XorStep(102, 6);
    XorStep(204, 12);
    XorStep(408, 24);
    XorStep(816, 49);
    XorStep(1633, 98);
  }

  lemma {:induction false} MixLast(s: seq<nat>, b: nat, hash: nat, n: nat)
    requires n > 0
    ensures Mix(s + [b], hash, n) == Combine(Mix(s, hash, n), b, n)
  {
    if s == [] {
      assert [b][1..] == [];
    } else {
      assert (s + [b])[0] == s[0] && (s + [b])[1..] == s[1..] + [b];
      MixLast(s[1..], b, Combine(hash, s[0], n), n);
    }
  }

  lemma EqualPairs(m: Memory, a: Ptr, b: Ptr)
    requires Acyclic(m) && a < |m.cells| && b < |m.cells| && Equal(m, a, b) && a != b && IsCons(m, a)
    ensures IsCons(m, b)
    ensures var c, d := m.cells[a], m.cells[b];
            && c.car < |m.cells| && d.car < |m.cells| && c.cdr < |m.cells| && d.cdr < |m.cells|
            && Equal(m, c.car, d.car) && Equal(m, c.cdr, d.cdr)
            && Rank(m, c.car) < Rank(m, a) && Rank(m, c.cdr) < Rank(m, a)
  {
    var c, d := m.cells[a], m.cells[b];
    assert Child(c, 0) == c.car && Child(c, 1) == c.cdr;
    assert Child(d, 0) == d.car && Child(d, 1) == d.cdr;
  }

  lemma AtomsSameHash(m: Memory, U: Conversion, n: nat, a: Ptr, b: Ptr)
    requires Acyclic(m) && a < |m.cells| && b < |m.cells| && n > 0 && Equal(m, a, b) && a != b
    requires !IsCons(m, a) && !(a > 0 && m.cells[a].LispArray?)
    ensures Hash(m, U, n, a) == Hash(m, U, n, b) && !IsCons(m, b)
  {
    hide HashSpine, HashElements, Mix;
    if m.cells[a].Doubles? {
      RealsSame(m.cells[a].doubles, m.cells[b].doubles);
    }
  }

  lemma ConsHash(m: Memory, U: Conversion, n: nat, p: Ptr)
    requires Acyclic(m) && p < |m.cells| && n > 0 && IsCons(m, p)
    ensures var c := m.cells[p];
            && c.car < |m.cells| && c.cdr < |m.cells|
            && Hash(m, U, n, p) == HashSpine(m, U, n, c.cdr, Hash(m, U, n, c.car))
            && forall h: nat :: HashSpine(m, U, n, p, h) == HashSpine(m, U, n, c.cdr, Combine(h, Hash(m, U, n, c.car), n))
  {
    var c := m.cells[p];
    assert Child(c, 0) == c.car && Child(c, 1) == c.cdr;
  }

  lemma AtomSpine(m: Memory, U: Conversion, n: nat, p: Ptr, h: nat)
    requires Acyclic(m) && p < |m.cells| && n > 0 && !IsCons(m, p)
    ensures HashSpine(m, U, n, p, h) == Combine(h, Hash(m, U, n, p), n)
  {
  }

  lemma ArrayHash(m: Memory, U: Conversion, n: nat, p: Ptr)
    requires Acyclic(m) && 0 < p < |m.cells| && n > 0 && m.cells[p].LispArray?
    ensures Hash(m, U, n, p) == HashElements(m, U, n, p, 0, 0)
  {
  }

  lemma EqualArrays(m: Memory, a: Ptr, b: Ptr)
    requires Acyclic(m) && 0 < a < |m.cells| && b < |m.cells| && Equal(m, a, b) && a != b && m.cells[a].LispArray?
    ensures b > 0 && m.cells[b].LispArray?
  {
  }

  /** Keys that `equal?` takes for the same have the same hash. */
  lemma {:induction false} EqualSameHash(m: Memory, U: Conversion, n: nat, a: Ptr, b: Ptr)
    requires Acyclic(m) && a < |m.cells| && b < |m.cells| && n > 0 && Equal(m, a, b)
    ensures Hash(m, U, n, a) == Hash(m, U, n, b)
    decreases Rank(m, a), 1
  {
    hide Equal, Hash, HashSpine, HashElements, Combine, Acyclic;
    if a == b {
    } else if IsCons(m, a) {
      EqualPairs(m, a, b);
      ConsHash(m, U, n, a);
      ConsHash(m, U, n, b);
      var c, d := m.cells[a], m.cells[b];
      EqualSameHash(m, U, n, c.car, d.car);
      EqualSameSpine(m, U, n, c.cdr, d.cdr, Hash(m, U, n, c.car));
    } else if a > 0 && m.cells[a].LispArray? {
      EqualArrays(m, a, b);
      ArrayHash(m, U, n, a);
      ArrayHash(m, U, n, b);
      EqualSameElements(m, U, n, a, b, 0, 0);
    } else {
      AtomsSameHash(m, U, n, a, b);
    }
  }

  lemma {:induction false} EqualSameSpine(m: Memory, U: Conversion, n: nat, a: Ptr, b: Ptr, hash: nat)
    requires Acyclic(m) && a < |m.cells| && b < |m.cells| && n > 0 && Equal(m, a, b)
    ensures HashSpine(m, U, n, a, hash) == HashSpine(m, U, n, b, hash)
    decreases Rank(m, a), 2
  {
    hide Equal, Hash, HashSpine, HashElements, Combine, Acyclic;
    if a == b {
    } else if IsCons(m, a) {
      EqualPairs(m, a, b);
      ConsHash(m, U, n, a);
      ConsHash(m, U, n, b);
      var c, d := m.cells[a], m.cells[b];
      EqualSameHash(m, U, n, c.car, d.car);
      EqualSameSpine(m, U, n, c.cdr, d.cdr, Combine(hash, Hash(m, U, n, c.car), n));
    } else {
      EqualSameHash(m, U, n, a, b);
      NotPair(m, a, b);
      AtomSpine(m, U, n, a, hash);
      AtomSpine(m, U, n, b, hash);
    }
  }

  lemma NotPair(m: Memory, a: Ptr, b: Ptr)
    requires Acyclic(m) && a < |m.cells| && b < |m.cells| && Equal(m, a, b) && !IsCons(m, a)
    ensures !IsCons(m, b)
  {
  }

  lemma {:induction false} EqualSameElements(m: Memory, U: Conversion, n: nat, a: Ptr, b: Ptr, j: nat, hash: nat)
    requires Acyclic(m) && 0 < a < |m.cells| && 0 < b < |m.cells| && n > 0 && Equal(m, a, b) && a != b && hash < n
    requires m.cells[a].LispArray? && m.cells[b].LispArray? && j <= |m.cells[a].elems|
    ensures |m.cells[a].elems| == |m.cells[b].elems|
    ensures HashElements(m, U, n, a, j, hash) == HashElements(m, U, n, b, j, hash)
    decreases Rank(m, a), 0, |m.cells[a].elems| - j
  {
    var s, t := m.cells[a].elems, m.cells[b].elems;
    if j < |s| {
      assert Child(m.cells[a], j) == s[j] && Child(m.cells[b], j) == t[j];
      EqualSameHash(m, U, n, s[j], t[j]);
      EqualSameElements(m, U, n, a, b, j + 1, Combine(hash, Hash(m, U, n, s[j]), n));
    }
  }

  lemma Below(m: Memory, p: Ptr)
    requires Acyclic(m) && p < |m.cells| && IsCons(m, p)
    ensures var c := m.cells[p];
            && c.car < |m.cells| && c.cdr < |m.cells|
            && Rank(m, c.car) < Rank(m, p) && Rank(m, c.cdr) < Rank(m, p)
  {
    assert Child(m.cells[p], 0) == m.cells[p].car && Child(m.cells[p], 1) == m.cells[p].cdr;
  }

  /** `siod_equal`: recursion into the CARs and a loop down the CDRs. */
  method IsEqual(m: Memory, a0: Ptr, b0: Ptr) returns (e: bool)
    requires Acyclic(m) && a0 < |m.cells| && b0 < |m.cells|
    ensures e == Equal(m, a0, b0)
    decreases Rank(m, a0)
  {
    var a: Ptr, b: Ptr := a0, b0;
    while a != b && IsCons(m, a) && IsCons(m, b)
      invariant a < |m.cells| && b < |m.cells| && Rank(m, a) <= Rank(m, a0)
      invariant Equal(m, a0, b0) == Equal(m, a, b)
      decreases Rank(m, a)
    {
      Below(m, a);
      Below(m, b);
      var same := IsEqual(m, m.cells[a].car, m.cells[b].car);
      if !same {
        return false;
      }
      a, b := m.cells[a].cdr, m.cells[b].cdr;
    }
    if a == b {
      return true;
    }
    if a == 0 || b == 0 {
      return false;
    }
    match (m.cells[a], m.cells[b])
    case (Flonum(x), Flonum(y)) => return Same(x, y);
    case (Octets(c, s), Octets(d, t)) => return c == d && s == t;
    case (Longs(s), Longs(t)) => return s == t;
    case (Doubles(s), Doubles(t)) => return SameAll(s, t);
    case (LispArray(s), LispArray(t)) =>
      if |s| != |t| {
        return false;
      }
      var j := 0;
      while j < |s|
        invariant 0 <= j <= |s|
        invariant forall i :: 0 <= i < j ==> s[i] < |m.cells| && t[i] < |m.cells| && Equal(m, s[i], t[i])
      {
        ElementsBelow(m, a, j);
        ElementsBelow(m, b, j);
        var same := IsEqual(m, s[j], t[j]);
        if !same {
          return false;
        }
        j := j + 1;
      }
      return true;
    case _ => return false;
  }

  /** The hashing loops over octets and words. */
  method MixAll(s: seq<nat>, n: nat) returns (hash: nat)
    requires n > 0
    ensures hash == Mix(s, 0, n)
  {
    hash := 0;
    var j := 0;
    assert s[0..] == s;
    while j < |s|
      invariant 0 <= j <= |s| && Mix(s[j..], hash, n) == Mix(s, 0, n)
    {
      assert s[j..][1..] == s[j + 1..];
      hash := Combine(hash, s[j], n);
      j := j + 1;
    }
  }

  /** `siod_c_siod_sxhash` */
  method Sxhash(m: Memory, U: Conversion, n: nat, p: Ptr) returns (hash: nat)
    requires Acyclic(m) && p < |m.cells| && n > 0
    ensures hash == Hash(m, U, n, p)
    decreases Rank(m, p)
  {
    hide Mix, Combine;
    if p == 0 {
      return 0;
    }
    match m.cells[p]
    case Cons(a, b) =>
      Below(m, p);
      hash := Sxhash(m, U, n, a);
      var tmp: Ptr := b;
      while IsCons(m, tmp)
        invariant tmp < |m.cells| && Rank(m, tmp) < Rank(m, p)
        invariant Hash(m, U, n, p) == HashSpine(m, U, n, tmp, hash)
        decreases Rank(m, tmp)
      {
        Below(m, tmp);
        var h := Sxhash(m, U, n, m.cells[tmp].car);
        hash := Combine(hash, h, n);
        tmp := m.cells[tmp].cdr;
      }
      var h := Sxhash(m, U, n, tmp);
      hash := Combine(hash, h, n);
    case Flonum(x) => return U(x) % n;
    case Named(name, _) => hash := MixAll(name, n);
    case Octets(_, s) => hash := MixAll(s, n);
    case Longs(s) => hash := MixAll(Remainders(s, n), n);
    case Doubles(s) => hash := MixAll(Remainders(Cast(U, s), n), n);
    case LispArray(e) =>
      hash := 0;
      var j := 0;
      while j < |e|
        invariant 0 <= j <= |e| && hash < n
        invariant Hash(m, U, n, p) == HashElements(m, U, n, p, j, hash)
      {
        ElementsBelow(m, p, j);
        var h := Sxhash(m, U, n, e[j]);
        hash := Combine(hash, h, n);
        j := j + 1;
      }
    case Opaque => return 0;
  }

  // ---- Tables ---------------------------------------------------------------------------

  /** A bucket is an association list, newest entry first. */
  datatype Entry = Entry(key: Ptr, value: Ptr)

  /** Where `siod_assoc` stops: the first entry with an equal key, or the length. */
  function Find(m: Memory, x: Ptr, l: seq<Entry>): (i: nat)
    requires Acyclic(m) && x < |m.cells|
    requires forall j :: 0 <= j < |l| ==> l[j].key < |m.cells|
    ensures i <= |l|
    ensures i < |l| ==> Equal(m, l[i].key, x)
    ensures forall j :: 0 <= j < i ==> !Equal(m, l[j].key, x)
  {
    if l == [] || Equal(m, l[0].key, x) then 0
    else
      var i := Find(m, x, l[1..]);
      assert forall j :: 0 < j < 1 + i ==> l[j] == l[1..][j - 1];
      1 + i
  }

  type Buckets = seq<seq<Entry>>

  /** Every entry lies in the bucket of its key's hash. */
  predicate Placed(m: Memory, U: Conversion, bs: Buckets)
    requires Acyclic(m)
  {
    |bs| > 0
    && forall b, j :: 0 <= b < |bs| && 0 <= j < |bs[b]| ==>
         bs[b][j].key < |m.cells| && Hash(m, U, |bs|, bs[b][j].key) == b
  }

  /** No bucket holds two keys with the same structure. */
  predicate Distinct(m: Memory, U: Conversion, bs: Buckets)
    requires Acyclic(m) && Placed(m, U, bs)
  {
    forall b, i, j :: 0 <= b < |bs| && 0 <= i < j < |bs[b]| ==>
      Unfold(m, bs[b][i].key) != Unfold(m, bs[b][j].key)
  }

  ghost predicate TableOk(m: Memory, U: Conversion, bs: Buckets) {
    Acyclic(m) && Placed(m, U, bs) && Distinct(m, U, bs)
  }

  /** The entry at `b`, `j` is for the structure `t`. */
  ghost predicate At(m: Memory, U: Conversion, bs: Buckets, t: Tree, b: int, j: int)
    requires Acyclic(m) && Placed(m, U, bs)
  {
    0 <= b < |bs| && 0 <= j < |bs[b]| && Unfold(m, bs[b][j].key) == t
  }

  /** The table as a relation between structures and values. */
  ghost predicate Maps(m: Memory, U: Conversion, bs: Buckets, t: Tree, v: Ptr)
    requires TableOk(m, U, bs)
  {
    exists b, j :: At(m, U, bs, t, b, j) && bs[b][j].value == v
  }

  ghost predicate Bound(m: Memory, U: Conversion, bs: Buckets, t: Tree)
    requires TableOk(m, U, bs)
  {
    exists b, j :: At(m, U, bs, t, b, j)
  }

  /** A structure has at most one place in the whole table. */
  lemma OnePlace(m: Memory, U: Conversion, bs: Buckets, t: Tree, b: int, j: int, c: int, i: int)
    requires TableOk(m, U, bs) && At(m, U, bs, t, b, j) && At(m, U, bs, t, c, i)
    ensures b == c && j == i
  {
    hide Hash, Unfold, Equal, Acyclic;
    var x, y := bs[b][j].key, bs[c][i].key;
    EqualIsSameTree(m, x, y);
    EqualSameHash(m, U, |bs|, x, y);
  }

  /** So the relation is a finite map: one value at most to a structure. */
  lemma MapsOnce(m: Memory, U: Conversion, bs: Buckets, t: Tree, v: Ptr, w: Ptr)
    requires TableOk(m, U, bs) && Maps(m, U, bs, t, v) && Maps(m, U, bs, t, w)
    ensures v == w
  {
    hide Hash, Unfold, Equal, Acyclic;
    var b, j :| At(m, U, bs, t, b, j) && bs[b][j].value == v;
    var c, i :| At(m, U, bs, t, c, i) && bs[c][i].value == w;
    OnePlace(m, U, bs, t, b, j, c, i);
  }

  /** Looking in the one bucket is looking in the whole table. */
  lemma BucketDecides(m: Memory, U: Conversion, bs: Buckets, key: Ptr)
    requires TableOk(m, U, bs) && key < |m.cells|
    ensures var b, t := Hash(m, U, |bs|, key), Unfold(m, key);
            var i := Find(m, key, bs[b]);
            (i < |bs[b]| <==> Bound(m, U, bs, t)) && (i < |bs[b]| ==> At(m, U, bs, t, b, i))
  {
    hide Hash, Unfold, Equal, Acyclic, Find;
    var b, t := Hash(m, U, |bs|, key), Unfold(m, key);
    var i := Find(m, key, bs[b]);
    if i < |bs[b]| {
      EqualIsSameTree(m, bs[b][i].key, key);
      assert At(m, U, bs, t, b, i);
    } else if Bound(m, U, bs, t) {
      var c, j :| At(m, U, bs, t, c, j);
      var x := bs[c][j].key;
      EqualIsSameTree(m, x, key);
      EqualSameHash(m, U, |bs|, x, key);
      assert false;
    }
  }

  /** `cs` maps the structure `x` to `value` and every other as `bs` does. */
  ghost predicate Updated(m: Memory, U: Conversion, bs: Buckets, cs: Buckets, x: Tree, value: Ptr)
    requires TableOk(m, U, bs) && TableOk(m, U, cs)
  {
    forall t, w :: Maps(m, U, cs, t, w) <==> if t == x then w == value else Maps(m, U, bs, t, w)
  }

  /** One place for the new value, and the same entries elsewhere, make an update. */
  lemma MakesUpdate(m: Memory, U: Conversion, bs: Buckets, cs: Buckets, x: Tree, value: Ptr, b: int, i: int)
    requires TableOk(m, U, bs) && TableOk(m, U, cs)
    requires At(m, U, cs, x, b, i) && cs[b][i].value == value
    requires forall t, c, j :: t != x && At(m, U, cs, t, c, j) ==> Maps(m, U, bs, t, cs[c][j].value)
    requires forall t, c, j :: t != x && At(m, U, bs, t, c, j) ==> Maps(m, U, cs, t, bs[c][j].value)
    ensures Updated(m, U, bs, cs, x, value)
  {
    hide Hash, Unfold, Equal, Acyclic;
    forall t, w ensures Maps(m, U, cs, t, w) <==> if t == x then w == value else Maps(m, U, bs, t, w) {
      if t == x {
        assert Maps(m, U, cs, t, value);
        if Maps(m, U, cs, t, w) {
          MapsOnce(m, U, cs, t, w, value);
        }
      }
    }
  }

  /** Replacing the value of an entry. */
  lemma Replaced(m: Memory, U: Conversion, bs: Buckets, b: int, i: int, value: Ptr)
    requires TableOk(m, U, bs) && 0 <= b < |bs| && 0 <= i < |bs[b]|
    ensures var cs: Buckets := bs[b := bs[b][i := Entry(bs[b][i].key, value)]];
            TableOk(m, U, cs) && Updated(m, U, bs, cs, Unfold(m, bs[b][i].key), value)
  {
    hide Hash, Unfold, Equal, Acyclic, Updated;
    var key := bs[b][i].key;
    var cs: Buckets := bs[b := bs[b][i := Entry(key, value)]];
    assert forall c, j :: 0 <= c < |bs| && 0 <= j < |bs[c]| ==> |cs[c]| == |bs[c]| && cs[c][j].key == bs[c][j].key;
    assert TableOk(m, U, cs);
    assert forall t, c, j :: At(m, U, cs, t, c, j) <==> At(m, U, bs, t, c, j);
    MakesUpdate(m, U, bs, cs, Unfold(m, key), value, b, i);
  }

  /** Putting a new entry in front. */
  lemma Added(m: Memory, U: Conversion, bs: Buckets, key: Ptr, value: Ptr)
    requires TableOk(m, U, bs) && key < |m.cells| && !Bound(m, U, bs, Unfold(m, key))
    ensures var b := Hash(m, U, |bs|, key);
            var cs: Buckets := bs[b := [Entry(key, value)] + bs[b]];
            TableOk(m, U, cs) && Updated(m, U, bs, cs, Unfold(m, key), value)
  {
    hide Hash, Unfold, Equal, Acyclic, Updated;
    var b := Hash(m, U, |bs|, key);
    var cs: Buckets := bs[b := [Entry(key, value)] + bs[b]];
    assert forall j :: 0 < j < |cs[b]| ==> cs[b][j] == bs[b][j - 1];
    assert Placed(m, U, cs);
    forall j | 0 <= j < |bs[b]| ensures Unfold(m, bs[b][j].key) != Unfold(m, key) {
      assert !At(m, U, bs, Unfold(m, key), b, j);
    }
    assert Distinct(m, U, cs);
    forall t, c, j | t != Unfold(m, key) && At(m, U, cs, t, c, j) ensures Maps(m, U, bs, t, cs[c][j].value) {
      assert At(m, U, bs, t, c, if c == b then j - 1 else j);
    }
    forall t, c, j | t != Unfold(m, key) && At(m, U, bs, t, c, j) ensures Maps(m, U, cs, t, bs[c][j].value) {
      assert At(m, U, cs, t, c, if c == b then j + 1 else j);
    }
    MakesUpdate(m, U, bs, cs, Unfold(m, key), value, b, 0);
  }

  // ---- Objects made later -----------------------------------------------------------------

  /** Memory with more objects in it; the old ones are as they were. */
  ghost predicate Grows(m: Memory, n: Memory) {
    Acyclic(m) && Acyclic(n) && m.cells <= n.cells && m.rank <= n.rank
  }

  lemma OldChild(m: Memory, w: Memory, p: Ptr, i: nat)
    requires Grows(m, w) && 0 < p < |m.cells| && i < Children(m.cells[p])
    ensures p < |w.cells| && w.cells[p] == m.cells[p]
    ensures Child(m.cells[p], i) < |m.cells| && Rank(m, Child(m.cells[p], i)) < Rank(m, p)
  {
  }

  lemma OldConsChildren(m: Memory, w: Memory, p: Ptr)
    requires Grows(m, w) && 0 < p < |m.cells| && m.cells[p].Cons?
    ensures var c := m.cells[p];
            && w.cells[p] == c && c.car < |m.cells| && c.cdr < |m.cells|
            && Rank(m, c.car) < Rank(m, p) && Rank(m, c.cdr) < Rank(m, p)
  {
    OldChild(m, w, p, 0);
    OldChild(m, w, p, 1);
    assert Child(m.cells[p], 0) == m.cells[p].car && Child(m.cells[p], 1) == m.cells[p].cdr;
  }

  lemma {:induction false} UnfoldGrows(m: Memory, w: Memory, p: Ptr)
    requires Grows(m, w) && p < |m.cells|
    ensures p < |w.cells| && Unfold(w, p) == Unfold(m, p)
    decreases Rank(m, p)
  {
    if p > 0 && m.cells[p].Cons? {
      OldConsChildren(m, w, p);
      UnfoldGrows(m, w, m.cells[p].car);
      UnfoldGrows(m, w, m.cells[p].cdr);
    } else if p > 0 && m.cells[p].LispArray? {
      var e := m.cells[p].elems;
      assert w.cells[p] == m.cells[p];
      forall j | 0 <= j < |e|
        ensures e[j] < |m.cells| && Unfold(w, p).elems[j] == Unfold(m, p).elems[j]
      {
        OldChild(m, w, p, j);
        assert Child(m.cells[p], j) == e[j];
        UnfoldGrows(m, w, e[j]);
      }
      assert Unfold(w, p).elems == Unfold(m, p).elems;
    } else if p > 0 {
      assert w.cells[p] == m.cells[p];
    }
  }

  lemma {:induction false} HashGrows(m: Memory, w: Memory, U: Conversion, n: nat, p: Ptr)
    requires Grows(m, w) && p < |m.cells| && n > 0
    ensures p < |w.cells| && Hash(w, U, n, p) == Hash(m, U, n, p)
    decreases Rank(m, p), 1
  {
    hide Combine, Mix, Cast, Remainders;
    if p > 0 && m.cells[p].Cons? {
      OldConsChildren(m, w, p);
      HashGrows(m, w, U, n, m.cells[p].car);
      SpineGrows(m, w, U, n, m.cells[p].cdr, Hash(m, U, n, m.cells[p].car));
    } else if p > 0 && m.cells[p].LispArray? {
      ElementsGrow(m, w, U, n, p, 0, 0);
    } else if p > 0 {
      assert w.cells[p] == m.cells[p];
    }
  }

  lemma {:induction false} SpineGrows(m: Memory, w: Memory, U: Conversion, n: nat, p: Ptr, hash: nat)
    requires Grows(m, w) && p < |m.cells| && n > 0
    ensures p < |w.cells| && HashSpine(w, U, n, p, hash) == HashSpine(m, U, n, p, hash)
    decreases Rank(m, p), 2
  {
    hide Combine, Hash;
    if IsCons(m, p) {
      OldConsChildren(m, w, p);
      var c := m.cells[p];
      HashGrows(m, w, U, n, c.car);
      SpineGrows(m, w, U, n, c.cdr, Combine(hash, Hash(m, U, n, c.car), n));
    } else {
      HashGrows(m, w, U, n, p);
      assert p > 0 ==> w.cells[p] == m.cells[p];
    }
  }

  lemma {:induction false} ElementsGrow(m: Memory, w: Memory, U: Conversion, n: nat, p: Ptr, j: nat, hash: nat)
    requires Grows(m, w) && 0 < p < |m.cells| && n > 0 && hash < n
    requires m.cells[p].LispArray? && j <= |m.cells[p].elems|
    ensures p < |w.cells| && w.cells[p] == m.cells[p]
    ensures HashElements(w, U, n, p, j, hash) == HashElements(m, U, n, p, j, hash)
    decreases Rank(m, p), 0, |m.cells[p].elems| - j
  {
    hide Combine, Hash;
    assert w.cells[p] == m.cells[p];
    var e := m.cells[p].elems;
    if j < |e| {
      OldChild(m, w, p, j);
      assert Child(m.cells[p], j) == e[j];
      HashGrows(m, w, U, n, e[j]);
      ElementsGrow(m, w, U, n, p, j + 1, Combine(hash, Hash(m, U, n, e[j]), n));
    }
  }

  /** A table is the same map in the larger memory. */
  lemma TableGrows(m: Memory, w: Memory, U: Conversion, bs: Buckets)
    requires Grows(m, w) && TableOk(m, U, bs)
    ensures TableOk(w, U, bs)
    ensures forall t, v :: Maps(w, U, bs, t, v) <==> Maps(m, U, bs, t, v)
  {
    hide Hash, Unfold, Acyclic;
    forall b, j | 0 <= b < |bs| && 0 <= j < |bs[b]|
      ensures var k := bs[b][j].key;
              && k < |m.cells| && k < |w.cells| && Hash(w, U, |bs|, k) == b && Unfold(w, k) == Unfold(m, k)
    {
      UnfoldGrows(m, w, bs[b][j].key);
      HashGrows(m, w, U, |bs|, bs[b][j].key);
    }
    assert Placed(w, U, bs);
    assert Distinct(w, U, bs);
    assert forall t, b, j :: At(w, U, bs, t, b, j) <==> At(m, U, bs, t, b, j);
  }

  /** What happens to a table, and to the memory its keys are in. */
  datatype Act = NewObjects(m: Memory) | Set(key: Ptr, value: Ptr)

  /** Each key is there when it is used. */
  ghost predicate Possible(m: Memory, acts: seq<Act>)
    decreases |acts|
  {
    acts == [] ||
    (match acts[0]
     case NewObjects(w) => Grows(m, w) && Possible(w, acts[1..])
     case Set(key, _) => Acyclic(m) && key < |m.cells| && Possible(m, acts[1..]))
  }

  /** Whether the structure `t` has the value `v` at the end, given whether it has it at the
      start: the last value set for it counts. */
  ghost predicate EndsAs(m: Memory, acts: seq<Act>, t: Tree, v: Ptr, now: bool)
    requires Possible(m, acts)
    decreases |acts|
  {
    if acts == [] then now
    else
      match acts[0]
      case NewObjects(w) => EndsAs(w, acts[1..], t, v, now)
      case Set(key, value) => EndsAs(m, acts[1..], t, v, if t == Unfold(m, key) then v == value else now)
  }

  class HashTable {
    var m: Memory
    const U: Conversion
    const data: array<seq<Entry>>

    ghost predicate Valid()
      reads this`m, data
    {
      TableOk(m, U, data[..])
    }

    constructor (m: Memory, U: Conversion, n: nat)
      requires Acyclic(m) && n > 0
      ensures this.m == m && this.U == U && Valid() && fresh(data) && data.Length == n
      ensures forall t, v :: !Maps(m, U, data[..], t, v)
    {
      this.m, this.U := m, U;
      data := new seq<Entry>[n](i => []);
    }

    /** New objects are made; the table maps what it did. */
    method Extend(w: Memory)
      requires Valid() && Grows(m, w)
      modifies this`m
      ensures Valid() && m == w
      ensures forall t, v :: Maps(m, U, data[..], t, v) <==> old(Maps(m, U, data[..], t, v))
    {
      hide Hash, Unfold, Acyclic, Maps;
      TableGrows(m, w, U, data[..]);
      m := w;
    }

    /** Over any run each structure has the value set for it last, among keys made at any
        time. */
    method Run(acts: seq<Act>)
      requires Valid() && Possible(m, acts)
      modifies this`m, data
      ensures Valid()
      ensures forall t, v :: Maps(m, U, data[..], t, v) <==> EndsAs(old(m), acts, t, v, old(Maps(m, U, data[..], t, v)))
    {
      hide Hash, Unfold, Equal, Acyclic, Grows, Maps, Distinct, Placed;
      var left := acts;
      while left != []
        invariant Valid() && Possible(m, left)
        invariant forall t, v :: EndsAs(old(m), acts, t, v, old(Maps(m, U, data[..], t, v)))
                            <==> EndsAs(m, left, t, v, Maps(m, U, data[..], t, v))
        decreases |left|
      {
        match left[0] {
          case NewObjects(w) => Extend(w);
          case Set(key, value) => Hset(key, value);
        }
        left := left[1..];
      }
    }

    /** `siod_href_index`; the error there cannot happen. */
    method Index(key: Ptr) returns (index: nat)
      requires Valid() && key < |m.cells|
      ensures index == Hash(m, U, data.Length, key) < data.Length
    {
      index := Sxhash(m, U, data.Length, key);
    }

    /** `siod_assoc` */
    method Assoc(x: Ptr, l: seq<Entry>) returns (i: nat)
      requires Acyclic(m) && x < |m.cells|
      requires forall j :: 0 <= j < |l| ==> l[j].key < |m.cells|
      ensures i == Find(m, x, l)
    {
      hide Equal, Acyclic;
      i := 0;
      assert l[0..] == l;
      while i < |l|
        invariant i <= |l| && Find(m, x, l) == i + Find(m, x, l[i..])
      {
        assert l[i..][1..] == l[i + 1..];
        var same := IsEqual(m, l[i].key, x);
        if same {
          return;
        }
        i := i + 1;
      }
    }

    /** `siod_href`: the value stored for a key equal to this one, NIL if there is none. */
    method Href(key: Ptr) returns (v: Ptr)
      requires Valid() && key < |m.cells|
      ensures Bound(m, U, data[..], Unfold(m, key)) ==> Maps(m, U, data[..], Unfold(m, key), v)
      ensures !Bound(m, U, data[..], Unfold(m, key)) ==> v == 0
    {
      hide Hash, Unfold, Equal, Acyclic, Find, Distinct;
      var index := Index(key);
      var l := data[index];
      BucketDecides(m, U, data[..], key);
      var i := Assoc(key, l);
      if i == |l| {
        return 0;
      }
      return l[i].value;
    }

    /** `siod_hset`: afterwards the table maps this structure to the value and every other
        structure to what it did before. */
    method Hset(key: Ptr, value: Ptr)
      requires Valid() && key < |m.cells|
      modifies data
      ensures Valid()
      ensures Updated(m, U, old(data[..]), data[..], Unfold(m, key), value)
    {
      hide Hash, Unfold, Equal, Acyclic, Find, Distinct, Updated;
      var index := Index(key);
      var l := data[index];
      ghost var bs := data[..];
      BucketDecides(m, U, bs, key);
      var i := Assoc(key, l);
      if i < |l| {
        Replaced(m, U, bs, index, i, value);
        data[index] := l[i := Entry(l[i].key, value)];
        assert data[..] == bs[index := bs[index][i := Entry(bs[index][i].key, value)]];
      } else {
        Added(m, U, bs, key, value);
        data[index] := [Entry(key, value)] + l;
        assert data[..] == bs[index := [Entry(key, value)] + bs[index]];
      }
    }
  }
}
