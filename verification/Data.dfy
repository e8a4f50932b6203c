/** Lisp data as finite trees, for the parts of the system that print, read and
    compare whole structures.  `N` is whatever stands for a number. */
module Data {
  import opened Bytes

  datatype Option<T> = None | Some(value: T)

  datatype Datum<N> =
    | Nil
    | Cons(car: Datum<N>, cdr: Datum<N>)
    | Flonum(value: N)
    | Symbol(name: seq<byte>)
    | String(bytes: seq<byte>)
    | ByteArray(bytes: seq<byte>)
    | LispArray(elems: seq<Datum<N>>)

  function Size<N>(d: Datum<N>): (n: nat)
    ensures n > 0
  {
    match d
    case Cons(a, b) => 1 + Size(a) + Size(b)
    case LispArray(elems) => 2 + |elems| + SizeAll(elems)
    case _ => 1
  }

  function SizeAll<N>(s: seq<Datum<N>>): nat {
    if s == [] then 0 else Size(s[0]) + SizeAll(s[1..])
  }

  /** The number of conses on the cdr chain of `d`. */
  function SpineLength<N>(d: Datum<N>): nat {
    if d.Cons? then 1 + SpineLength(d.cdr) else 0
  }

  /** What the cdr chain of `d` ends in. */
  function SpineEnd<N>(d: Datum<N>): (e: Datum<N>)
    ensures !e.Cons?
  {
    if d.Cons? then SpineEnd(d.cdr) else d
  }

  function Spine<N>(d: Datum<N>): (s: seq<Datum<N>>)
    ensures |s| == SpineLength(d)
    ensures SizeAll(s) + SpineLength(d) + Size(SpineEnd(d)) == Size(d)
  {
    if d.Cons? then [d.car] + Spine(d.cdr) else []
  }

  function FromSpine<N>(s: seq<Datum<N>>, end: Datum<N>): Datum<N> {
    if s == [] then end else Cons(s[0], FromSpine(s[1..], end))
  }

  lemma {:induction false} SpineRebuilds<N>(d: Datum<N>)
    ensures FromSpine(Spine(d), SpineEnd(d)) == d
  {
    if d.Cons? {
      SpineRebuilds(d.cdr);
      assert Spine(d)[1..] == Spine(d.cdr);
    }
  }

  lemma {:induction false} SizeOfList<N>(s: seq<Datum<N>>)
    ensures Size(FromSpine(s, Nil)) == 1 + |s| + SizeAll(s)
    ensures Spine(FromSpine(s, Nil)) == s && SpineEnd(FromSpine(s, Nil)) == Nil
  {
    if s != [] {
      SizeOfList(s[1..]);
    }
  }
}
