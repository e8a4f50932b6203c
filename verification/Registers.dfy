/** The protected registers: the list of (location, length) ranges of C variables
    that both collectors treat as roots (src/siodp.h, src/slib.c:990-999). */
module Registers {

  datatype Register = Register(location: nat, length: nat)

  function Span(r: Register): (s: seq<nat>)
    ensures |s| == r.length
    ensures forall j :: 0 <= j < r.length ==> s[j] == r.location + j
  {
    seq(r.length, j => r.location + j)
  }

  /** Every protected location, in the order the collectors visit them. */
  function Locations(regs: seq<Register>): seq<nat> {
    if regs == [] then [] else Span(regs[0]) + Locations(regs[1..])
  }

  ghost predicate Distinct(s: seq<nat>) {
    forall i, j :: 0 <= i < j < |s| ==> s[i] != s[j]
  }

  ghost predicate InRange(regs: seq<Register>, n: nat) {
    forall i :: 0 <= i < |Locations(regs)| ==> Locations(regs)[i] < n
  }

  /** The root pointers held in the protected locations. */
  function Roots(globals: seq<int>, regs: seq<Register>): (r: seq<int>)
    ensures |r| == |Locations(regs)|
  {
    var l := Locations(regs);
    seq(|l|, i requires 0 <= i < |l| => if l[i] < |globals| then globals[l[i]] else 0)
  }
  /** Registering a range puts its locations in front of the others. */
  lemma RegisterMore(g: seq<int>, regs: seq<Register>, r: Register)
    ensures Locations([r] + regs) == Span(r) + Locations(regs)
    ensures InRange(regs, |g|) && r.location + r.length <= |g| ==> InRange([r] + regs, |g|)
    ensures r.location + r.length <= |g| ==>
              Roots(g, [r] + regs) == g[r.location..r.location + r.length] + Roots(g, regs)
  {
    assert ([r] + regs)[1..] == regs;
  }
}
