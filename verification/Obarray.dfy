/** Interning (src/slib.c:939-974): the table of symbols by hash is an index into the list
    of all symbols, and finds exactly what a search of the list would. */
module Obarray {
  import opened Bytes

  /** A symbol is its cell: a position in `names`. */
  type Sym = nat

  /** The hash loop over the characters of a name. */
  function HashFrom(name: seq<byte>, hash: nat, n: nat): (h: nat)
    requires n > 0
    ensures hash < n ==> h < n
  {
    if name == [] then hash else HashFrom(name[1..], Xor(hash * 17, name[0]) % n, n)
  }

  function Hash(name: seq<byte>, n: nat): (h: nat)
    requires n > 0
    ensures h < n
  {
    HashFrom(name, 0, n)
  }

  /** With 100 buckets the name `ab` goes to bucket 55. */
  lemma HashOfAb()
    ensures Hash([97, 98], 100) == 55
  {
    hide Xor;
    XorStep(0, 97);
    Xor1649();
    var name: seq<byte> := [97, 98];
    assert name[1..] == [98] && name[1..][1..] == [];
  }

  lemma Xor1649()
    ensures Xor(1649, 98) == 1555
  {
    hide Xor;
    XorStep(12, 0);
    XorStep(25, 1);
    XorStep(51, 3);
    XorStep(103, 6);
    XorStep(206, 12);
    XorStep(412, 24);
    XorStep(824, 49);
    XorStep(1649, 98);
  }

  /** These are symbols there are. */
  predicate Known(l: seq<Sym>, names: seq<seq<byte>>) {
    forall i :: 0 <= i < |l| ==> l[i] < |names|
  }

  /** The symbols of `l` whose names hash to `b`, in order. */
  function InBucket(l: seq<Sym>, names: seq<seq<byte>>, n: nat, b: nat): seq<Sym>
    requires n > 0 && Known(l, names)
  {
    if l == [] then []
    else if Hash(names[l[0]], n) == b then [l[0]] + InBucket(l[1..], names, n, b)
    else InBucket(l[1..], names, n, b)
  }

  lemma {:induction false} BucketMembers(l: seq<Sym>, names: seq<seq<byte>>, n: nat, b: nat)
    requires n > 0 && Known(l, names)
    ensures var r := InBucket(l, names, n, b);
            Known(r, names) && forall i :: 0 <= i < |r| ==> r[i] in l && Hash(names[r[i]], n) == b
  {
    hide Hash;
    if l != [] {
      BucketMembers(l[1..], names, n, b);
      var r, q := InBucket(l, names, n, b), InBucket(l[1..], names, n, b);
      forall i | 0 <= i < |r|
        ensures r[i] in l && r[i] < |names| && Hash(names[r[i]], n) == b
      {
        if |r| == |q| {
          assert r == q && q[i] in l[1..];
        } else if i > 0 {
          assert r[i] == q[i - 1] && q[i - 1] in l[1..];
        }
      }
    }
  }

  /** What a linear search finds: the position of the first symbol of that name, or the
      length. */
  function Search(l: seq<Sym>, names: seq<seq<byte>>, name: seq<byte>): (i: nat)
    requires Known(l, names)
    ensures i <= |l|
    ensures i < |l| ==> names[l[i]] == name
    ensures i == |l| ==> forall j :: 0 <= j < |l| ==> names[l[j]] != name
  {
    if l == [] || names[l[0]] == name then 0
    else
      var i := Search(l[1..], names, name);
      assert forall j :: 0 < j < |l| ==> l[j] == l[1..][j - 1];
      1 + i
  }

  /** Searching the bucket of a name is searching the whole list. */
  lemma {:induction false} BucketSearch(l: seq<Sym>, names: seq<seq<byte>>, n: nat, name: seq<byte>)
    requires n > 0 && Known(l, names)
    ensures var r := InBucket(l, names, n, Hash(name, n));
            Known(r, names) &&
            var i, j := Search(l, names, name), Search(r, names, name);
            (i == |l| <==> j == |r|) && (i < |l| ==> l[i] == r[j])
  {
    hide Hash;
    BucketMembers(l, names, n, Hash(name, n));
    if l != [] {
      BucketMembers(l[1..], names, n, Hash(name, n));
      BucketSearch(l[1..], names, n, name);
      var r := InBucket(l, names, n, Hash(name, n));
      if names[l[0]] != name && Hash(names[l[0]], n) == Hash(name, n) {
        assert r[1..] == InBucket(l[1..], names, n, Hash(name, n));
      }
    }
  }

  /** A new name at the end of memory does not disturb the buckets. */
  lemma {:induction false} BucketStays(l: seq<Sym>, names: seq<seq<byte>>, more: seq<seq<byte>>, n: nat, b: nat)
    requires n > 0 && names <= more && Known(l, names)
    ensures InBucket(l, names, n, b) == InBucket(l, more, n, b)
  {
    hide Hash;
    if l != [] {
      BucketStays(l[1..], names, more, n, b);
    }
  }

  lemma KnownMore(l: seq<Sym>, names: seq<seq<byte>>, name: seq<byte>)
    requires Known(l, names)
    ensures Known([|names|] + l, names + [name])
  {
  }

  /** A bucket once a new symbol is in front of the list. */
  lemma BucketAfter(l: seq<Sym>, names: seq<seq<byte>>, name: seq<byte>, n: nat, b: nat)
    requires n > 0 && Known(l, names) && Known([|names|] + l, names + [name])
    ensures var (s, r) := (|names|, InBucket(l, names, n, b));
            InBucket([s] + l, names + [name], n, b) == if b == Hash(name, n) then [s] + r else r
  {
    hide Hash;
    var (s, more) := (|names|, names + [name]);
    var all := [s] + l;
    assert all[0] == s && all[1..] == l && more[s] == name;
    BucketStays(l, names, more, n, b);
  }

  /** With more than one bucket, each holds just the symbols of the list that hash to it. */
  ghost predicate Filed(l: seq<Sym>, names: seq<seq<byte>>, table: seq<seq<Sym>>)
    requires Known(l, names) && |table| > 0
  {
    forall b :: 0 <= b < |table| ==> table[b] == InBucket(l, names, |table|, b)
  }

  lemma FiledAfter(l: seq<Sym>, names: seq<seq<byte>>, name: seq<byte>, table: seq<seq<Sym>>, h: nat)
    requires |table| > 1 && Known(l, names) && Known([|names|] + l, names + [name]) && Filed(l, names, table)
    requires h == Hash(name, |table|)
    ensures Filed([|names|] + l, names + [name], table[h := [|names|] + table[h]])
  {
    hide Hash, InBucket, Known;
    forall b | 0 <= b < |table|
      ensures InBucket([|names|] + l, names + [name], |table|, b) == table[h := [|names|] + table[h]][b]
    {
      BucketAfter(l, names, name, |table|, b);
    }
  }

  lemma FiledAt(l: seq<Sym>, names: seq<seq<byte>>, table: seq<seq<Sym>>, b: nat)
    requires Known(l, names) && b < |table| && Filed(l, names, table)
    ensures table[b] == InBucket(l, names, |table|, b)
  {
  }

  class SymbolTable {
    /** Names by cell; memory only grows here. */
    var names: seq<seq<byte>>
    var oblist: seq<Sym>
    const obarray: array<seq<Sym>>

    predicate Listed()
      reads this
    {
      && Known(oblist, names)
      && forall i, j :: 0 <= i < j < |oblist| ==> names[oblist[i]] != names[oblist[j]]
    }

    /** Names are unique, and with more than one bucket each bucket holds just the symbols
        of the list that hash to it. */
    ghost predicate Valid()
      reads this, obarray
    {
      && Listed()
      && (obarray.Length > 1 ==> Filed(oblist, names, obarray[..]))
    }

    constructor (dim: nat)
      ensures Valid() && oblist == [] && fresh(obarray) && obarray.Length == dim
    {
      names, oblist := [], [];
      obarray := new seq<Sym>[dim](i => []);
    }

    /** `siod_gen_siod_intern` */
    method Intern(name: seq<byte>) returns (sym: Sym)
      requires Valid()
      modifies this, obarray
      ensures Valid()
      ensures sym in oblist && sym < |names| && names[sym] == name
      ensures old(names) <= names
      ensures if exists i :: 0 <= i < |old(oblist)| && old(names)[old(oblist)[i]] == name
              then oblist == old(oblist) && names == old(names)
              else oblist == [sym] + old(oblist) && names == old(names) + [name] && sym == |old(names)|
    {
      hide InBucket, Hash, Search, Filed;
      var sl, hash := oblist, 0;
      if obarray.Length > 1 {
        hash := HashName(name);
        sl := obarray[hash];
        FiledAt(oblist, names, obarray[..], hash);
        BucketMembers(oblist, names, obarray.Length, hash);
        BucketSearch(oblist, names, obarray.Length, name);
      }
      var i := Find(sl, name);
      if i < |sl| {
        return sl[i];
      }
      KnownMore(oblist, names, name);
      if obarray.Length > 1 {
        FiledAfter(oblist, names, name, obarray[..], hash);
      }
      sym := |names|;
      names := names + [name];
      ghost var t := obarray[..];
      if obarray.Length > 1 {
        obarray[hash] := [sym] + sl;
        assert obarray[..] == t[hash := [sym] + sl];
      }
      oblist := [sym] + oblist;
    }

    method HashName(name: seq<byte>) returns (hash: nat)
      requires obarray.Length > 1
      ensures hash == Hash(name, obarray.Length)
    {
      hash := 0;
      var j := 0;
      assert name[0..] == name;
      while j < |name|
        invariant 0 <= j <= |name| && HashFrom(name[j..], hash, obarray.Length) == Hash(name, obarray.Length)
      {
        assert name[j..][1..] == name[j + 1..];
        hash := Xor(hash * 17, name[j]) % obarray.Length;
        j := j + 1;
      }
    }

    /** The `strcmp` loop. */
    method Find(sl: seq<Sym>, name: seq<byte>) returns (i: nat)
      requires Known(sl, names)
      ensures i == Search(sl, names, name)
    {
      i := 0;
      assert sl[0..] == sl;
      while i < |sl| && names[sl[i]] != name
        invariant i <= |sl| && Search(sl, names, name) == i + Search(sl[i..], names, name)
      {
        assert sl[i..][1..] == sl[i + 1..];
        i := i + 1;
      }
    }

    /** Over any run of interns: two of them give the same cell exactly when the names are
        the same. */
    method InternAll(all: seq<seq<byte>>) returns (syms: seq<Sym>)
      requires Valid()
      modifies this, obarray
      ensures Valid() && |syms| == |all|
      ensures forall i, j :: 0 <= i < |all| && 0 <= j < |all| ==> (syms[i] == syms[j] <==> all[i] == all[j])
    {
      syms := [];
      while |syms| < |all|
        invariant Valid() && |syms| <= |all|
        invariant forall i :: 0 <= i < |syms| ==> syms[i] in oblist && syms[i] < |names| && names[syms[i]] == all[i]
      {
        ghost var before := oblist;
        var s := Intern(all[|syms|]);
        assert forall x :: x in before ==> x in oblist;
        syms := syms + [s];
      }
      SameCell(syms, all);
    }

    lemma SameCell(syms: seq<Sym>, all: seq<seq<byte>>)
      requires Valid() && |syms| == |all|
      requires forall i :: 0 <= i < |syms| ==> syms[i] in oblist && syms[i] < |names| && names[syms[i]] == all[i]
      ensures forall i, j :: 0 <= i < |all| && 0 <= j < |all| ==> (syms[i] == syms[j] <==> all[i] == all[j])
    {
      forall i, j | 0 <= i < |all| && 0 <= j < |all| && all[i] == all[j] ensures syms[i] == syms[j] {
        var a :| 0 <= a < |oblist| && oblist[a] == syms[i];
        var b :| 0 <= b < |oblist| && oblist[b] == syms[j];
        assert a == b;
      }
    }
  }

  /** A symbol is on the list exactly when it is in the bucket of its name's hash. */
  lemma {:induction false} ListedIffInBucket(l: seq<Sym>, names: seq<seq<byte>>, n: nat, s: Sym)
    requires n > 0 && s < |names| && Known(l, names)
    ensures s in l <==> s in InBucket(l, names, n, Hash(names[s], n))
  {
    if l != [] {
      ListedIffInBucket(l[1..], names, n, s);
    }
  }
}
