/** Incremental MD5 (src/md5.c:99-185, 288-345; src/md5.h): a context that is fed a message
    in pieces comes to the digest of the whole.  Nothing here depends on what the block
    transform computes. */
module Md5 {
  import opened Bytes
  import opened Md5Block

  type BlockFunction = (Words, seq<byte>) -> Words

  const INIT := Words(0x67452301, 0xefcdab89, 0x98badcfe, 0x10325476)

  /** A word, least significant octet first. */
  function EncodeWord(x: nat): (s: seq<byte>)
    ensures |s| == 4
  {
    [x % 256, x / 0x100 % 256, x / 0x1_0000 % 256, x / 0x100_0000 % 256]
  }

  function EncodeWords(w: Words): (s: seq<byte>)
    ensures |s| == 16
  {
    EncodeWord(w.a) + EncodeWord(w.b) + EncodeWord(w.c) + EncodeWord(w.d)
  }

  // ---- The digest of a whole message (sections 3.1 to 3.5) ---------------------------

  /** The transform over all the complete blocks of `m`. */
  function Fold(T: BlockFunction, w: Words, m: seq<byte>): Words
    decreases |m|
  {
    if |m| < 64 then w else Fold(T, T(w, m[..64]), m[64..])
  }

  function Zeros(n: nat): (s: seq<byte>)
    ensures |s| == n
  {
    seq(n, i => 0)
  }

  function PadLength(n: nat): (k: nat)
    ensures 1 <= k <= 64 && (n + k) % 64 == 56
  {
    if n % 64 < 56 then 56 - n % 64 else 120 - n % 64
  }

  /** A one bit and zeros. */
  function Padding(k: nat): (s: seq<byte>)
    ensures |s| == k
  {
    if k == 0 then [] else [128] + Zeros(k - 1)
  }

  /** The message, a one bit, zeros up to eight octets short of a block, and the length in
      bits modulo 2^64. */
  function Padded(m: seq<byte>): (p: seq<byte>)
    ensures |p| == |m| + PadLength(|m|) + 8
  {
    m + Padding(PadLength(|m|)) + LengthBits(|m|)
  }

  function LengthBits(n: nat): (s: seq<byte>)
    ensures |s| == 8
  {
    LittleEndian(8 * n % TWO_64, 8)
  }

  /** The padded message ends on the first block boundary that leaves room for one octet and
      the length. */
  lemma PaddedIsWhole(m: seq<byte>)
    ensures |Padded(m)| % 64 == 0 && |m| + 9 <= |Padded(m)| < |m| + 9 + 64
  {
    hide *;
    var n := |m| + PadLength(|m|);
    assert n % 64 == 56;
  }

  /** After the message stands an octet with its top bit set, then zeros up to the last eight
      octets, and those are the length in bits modulo 2^64, least significant first. */
  lemma PaddedShape(m: seq<byte>)
    ensures var (p, n, e) := (Padded(m), |m|, |Padded(m)| - 8);
            && n < e && p[..n] == m && p[n] == 128 && (forall i :: n < i < e ==> p[i] == 0)
            && Value(p[e..]) == 8 * n % TWO_64
  {
    hide LittleEndian, Value;
    var p, n, k := Padded(m), |m|, PadLength(|m|);
    assert p[n + k..] == LengthBits(n);
    Pow256Of8();
    ValueOfLittleEndian(8 * n % TWO_64, 8);
  }

  /** The digest is the four words in order, each least significant octet first. */
  lemma EncodedWords(w: Words)
    ensures var s := EncodeWords(w);
            Value(s[..4]) == w.a && Value(s[4..8]) == w.b && Value(s[8..12]) == w.c && Value(s[12..]) == w.d
  {
    hide EncodeWord, Value;
    var s := EncodeWords(w);
    assert s[..4] == EncodeWord(w.a) && s[4..8] == EncodeWord(w.b) && s[8..12] == EncodeWord(w.c) && s[12..] == EncodeWord(w.d);
    ValueOfWord(w.a);
    ValueOfWord(w.b);
    ValueOfWord(w.c);
    ValueOfWord(w.d);
  }

  lemma ValueOfWord(x: word)
    ensures Value(EncodeWord(x)) == x
  {
    FourDigits(x);
    assert Pow256(2) == 0x1_0000 && Pow256(4) == TWO_32;
    ValueOfLittleEndian(x, 4);
  }

  function Digest(T: BlockFunction, m: seq<byte>): (d: seq<byte>)
    ensures |d| == 16
  {
    EncodeWords(Fold(T, INIT, Padded(m)))
  }

  lemma {:induction false} FoldAppend(T: BlockFunction, w: Words, a: seq<byte>, b: seq<byte>)
    requires |a| % 64 == 0
    ensures Fold(T, w, a + b) == Fold(T, Fold(T, w, a), b)
    decreases |a|
  {
    if a == [] {
      assert a + b == b;
    } else {
      assert (a + b)[..64] == a[..64];
      assert (a + b)[64..] == a[64..] + b;
      FoldAppend(T, T(w, a[..64]), a[64..], b);
    }
  }

  /** Where the last complete block of `n` octets ends. */
  function Whole(n: nat): nat {
    n - n % 64
  }

  /** What is left over after the complete blocks. */
  function Rest(m: seq<byte>): (r: seq<byte>)
    ensures |r| == |m| % 64
  {
    m[Whole(|m|)..]
  }

  lemma FoldWhole(T: BlockFunction, w: Words, m: seq<byte>)
    ensures Fold(T, w, m) == Fold(T, w, m[..Whole(|m|)])
  {
    FoldAppend(T, w, m[..Whole(|m|)], Rest(m));
    assert m[..Whole(|m|)] + Rest(m) == m;
  }

  lemma WholeAdds(n: nat, k: nat)
    ensures Whole(n + k) == Whole(n) + Whole(n % 64 + k)
  {
  }

  /** Adding to a message: the left-over octets and the new ones go on from the old state. */
  lemma FoldMore(T: BlockFunction, w: Words, m: seq<byte>, input: seq<byte>)
    ensures Fold(T, w, m + input) == Fold(T, Fold(T, w, m), Rest(m) + input)
    ensures Rest(m + input) == Rest(Rest(m) + input)
  {
    var n := Whole(|m|);
    FoldWhole(T, w, m);
    FoldAppend(T, w, m[..n], Rest(m) + input);
    assert m[..n] + (Rest(m) + input) == m + input;
    var t := Rest(m) + input;
    WholeAdds(|m|, |input|);
    assert (m + input)[n..] == t;
  }

  // ---- The context --------------------------------------------------------------------

  /** Bit count as two words; `Md5Update` adds to it with an explicit carry. */
  function AddBits(lo: nat, hi: nat, len: nat): (r: (nat, nat)) {
    var add := 8 * len % 0x1_0000_0000;
    var lo' := (lo + add) % 0x1_0000_0000;
    var hi' := if lo' < add then (hi + 1) % 0x1_0000_0000 else hi;
    (lo', (hi' + len / 0x2000_0000) % 0x1_0000_0000)
  }

  /** Long addition of two numbers given as quotient and remainder. */
  lemma Carry(q: nat, lo: nat, top: nat, add: nat)
    requires lo < 0x1_0000_0000 && add < 0x1_0000_0000
    ensures var x := (q + top) * 0x1_0000_0000 + (lo + add);
            && x % 0x1_0000_0000 == (lo + add) % 0x1_0000_0000
            && x / 0x1_0000_0000 == q + top + (if (lo + add) % 0x1_0000_0000 < add then 1 else 0)
  {
  }

  lemma HighWord(q: nat, top: nat, c: nat)
    ensures ((q % 0x1_0000_0000 + c) % 0x1_0000_0000 + top) % 0x1_0000_0000 == (q + top + c) % 0x1_0000_0000
  {
  }

  lemma BitsAdded(n: nat, len: nat)
    requires len < 0x1_0000_0000
    ensures AddBits(8 * n % 0x1_0000_0000, 8 * n / 0x1_0000_0000 % 0x1_0000_0000, len)
            == (8 * (n + len) % 0x1_0000_0000, 8 * (n + len) / 0x1_0000_0000 % 0x1_0000_0000)
  {
    var q, lo := 8 * n / 0x1_0000_0000, 8 * n % 0x1_0000_0000;
    var top, add := len / 0x2000_0000, 8 * len % 0x1_0000_0000;
    assert 8 * len == top * 0x1_0000_0000 + add;
    assert 8 * n == q * 0x1_0000_0000 + lo;
    Carry(q, lo, top, add);
    assert 8 * (n + len) == (q + top) * 0x1_0000_0000 + (lo + add);
    var c := if (lo + add) % 0x1_0000_0000 < add then 1 else 0;
    HighWord(q, top, c);
    LowCarry(lo, q % 0x1_0000_0000, len, c);
  }

  lemma LowCarry(lo: nat, hi: nat, len: nat, c: nat)
    requires lo < 0x1_0000_0000 && hi < 0x1_0000_0000
    requires c == if (lo + 8 * len % 0x1_0000_0000) % 0x1_0000_0000 < 8 * len % 0x1_0000_0000 then 1 else 0
    ensures AddBits(lo, hi, len)
         == ((lo + 8 * len % 0x1_0000_0000) % 0x1_0000_0000, ((hi + c) % 0x1_0000_0000 + len / 0x2000_0000) % 0x1_0000_0000)
  {
  }

  /** The guard of the block loop, computed in 32 bits. */
  predicate Guard(i: nat, len: nat) {
    (i + 63) % 0x1_0000_0000 < len
  }

  /** The guard stops the loop at the last complete block exactly when the octets already
      in the buffer and the new ones together number less than 2^32; otherwise it wraps
      round and lets the loop run past the end of the input. */
  lemma GuardIsExact(index: nat, len: nat, last: nat)
    requires index < 64 && len < TWO_32 && 64 - index <= last <= len
    requires (last + index) % 64 == 0 && last + 63 >= len
    ensures !Guard(last, len) <==> index + len < TWO_32
  {
  }

  /** It does wrap: with 63 octets in the buffer and 2^32 - 1 new ones it still holds where
      62 octets are left, and the loop takes 64 of them. */
  lemma GuardWraps()
    ensures var index, len, last := 63, TWO_32 - 1, TWO_32 - 63;
            && 64 - index <= last <= len && (last + index) % 64 == 0
            && Guard(last, len) && last + 62 == len
  {
    GuardIsExact(63, TWO_32 - 1, TWO_32 - 63);
  }

  predicate CountIs(n: nat, lo: nat, hi: nat) {
    lo == 8 * n % 0x1_0000_0000 && hi == 8 * n / 0x1_0000_0000 % 0x1_0000_0000
  }

  lemma CountAdded(n: nat, lo: nat, hi: nat, len: nat)
    requires CountIs(n, lo, hi) && len < 0x1_0000_0000
    ensures CountIs(n + len, AddBits(lo, hi, len).0, AddBits(lo, hi, len).1)
  {
    hide AddBits;
    BitsAdded(n, len);
  }

  /** The low word tells how much of the buffer is in use. */
  lemma IndexOf(n: nat, lo: nat, hi: nat)
    requires CountIs(n, lo, hi)
    ensures lo / 8 % 64 == n % 64
  {
    var q := 8 * n / 0x1_0000_0000;
    assert 8 * n == q * 0x1_0000_0000 + lo;
    LowBits(n, q, lo);
  }

  lemma LowBits(n: nat, q: nat, lo: nat)
    requires 8 * n == q * 0x1_0000_0000 + lo
    ensures lo / 8 % 64 == n % 64
  {
    assert lo / 8 == n - 64 * (q * 0x80_0000);
  }

  lemma NothingYet(T: BlockFunction)
    ensures Fold(T, INIT, []) == INIT && Rest([]) == [] && CountIs(0, 0, 0)
  {
  }

  lemma FoldOne(T: BlockFunction, w: Words, block: seq<byte>, m: seq<byte>)
    requires |block| == 64
    ensures Fold(T, w, block + m) == Fold(T, T(w, block), m)
  {
    assert (block + m)[..64] == block && (block + m)[64..] == m;
  }

  lemma FoldRest(T: BlockFunction, w: Words, m: seq<byte>)
    requires |m| < 64
    ensures Fold(T, w, m) == w && Rest(m) == m
  {
  }

  /** One turn of the block loop: `t` is what is still to be taken in, from `i` on. */
  lemma LoopStep(T: BlockFunction, w: Words, input: seq<byte>, i: nat)
    requires i + 64 <= |input|
    ensures Fold(T, w, input[i..]) == Fold(T, T(w, input[i..i + 64]), input[i + 64..])
    ensures Rest(input[i..]) == Rest(input[i + 64..])
  {
    assert input[i..] == input[i..i + 64] + input[i + 64..];
    FoldOne(T, w, input[i..i + 64], input[i + 64..]);
    var t, u := input[i..], input[i + 64..];
    assert |t| == |u| + 64;
    assert t[Whole(|t|)..] == u[Whole(|u|)..];
  }

  lemma RestOne(block: seq<byte>, m: seq<byte>)
    requires |block| == 64
    ensures Rest(block + m) == Rest(m)
  {
    var t := block + m;
    assert t[Whole(|t|)..] == m[Whole(|m|)..];
  }

  lemma LengthMod(n: nat, len: nat, at: nat, i: nat)
    requires if n % 64 + len < 64 then at == n % 64 && i == 0 else at == 0 && i <= len < i + 64 && (i + n) % 64 == 0
    ensures (n + len) % 64 == at + (len - i)
  {
  }

  class Context {
    const T: BlockFunction
    var state: Words
    var lo: nat
    var hi: nat
    const buffer: array<byte>

    /** The context stands for the message `m`: the state is the fold over its complete
        blocks, the buffer holds the rest, the counts are its length in bits. */
    ghost predicate Holds(m: seq<byte>)
      reads this, buffer
    {
      && buffer.Length == 64
      && state == Fold(T, INIT, m)
      && buffer[..|m| % 64] == Rest(m)
      && CountIs(|m|, lo, hi)
    }

    /** `MD5Init` */
    constructor (T: BlockFunction)
      ensures this.T == T && Holds([]) && fresh(buffer)
    {
      hide Fold, Rest, CountIs;
      this.T := T;
      state, lo, hi := INIT, 0, 0;
      buffer := new byte[64];
      new;
      NothingYet(T);
    }

    /** `MD5_memcpy` into the buffer. */
    method Copy(at: nat, input: seq<byte>)
      requires at + |input| <= buffer.Length
      modifies buffer
      ensures buffer[..at] == old(buffer[..at]) && buffer[at..at + |input|] == input
    {
      var i := 0;
      while i < |input|
        invariant i <= |input|
        invariant buffer[..at] == old(buffer[..at]) && buffer[at..at + i] == input[..i]
      {
        buffer[at + i] := input[i];
        i := i + 1;
      }
    }

    /** `MD5Update`. The caller's only duty is that the octets waiting in the buffer and the
        new ones number less than 2^32. */
    method Update(ghost m: seq<byte>, input: seq<byte>)
      requires Holds(m) && |m| % 64 + |input| < TWO_32
      modifies this, buffer
      ensures Holds(m + input)
    {
      hide Fold, Rest, CountIs, AddBits, Whole;
      IndexOf(|m|, lo, hi);
      CountAdded(|m|, lo, hi, |input|);
      FoldMore(T, INIT, m, input);
      var index := lo / 8 % 64;
      var bits := AddBits(lo, hi, |input|);
      lo, hi := bits.0, bits.1;
      var partLen := 64 - index;
      var i, at := 0, index;
      if |input| >= partLen {
        i := TakeBlocks(index, Rest(m), input);
        at := 0;
      } else {
        FoldRest(T, state, Rest(m) + input);
      }
      Copy(at, input[i..]);
      assert buffer[..at + |input[i..]|] == buffer[..at] + buffer[at..at + |input[i..]|];
      LengthMod(|m|, |input|, at, i);
    }

    /** The part of `MD5Update` that fills the buffer up and transforms block after block. */
    method TakeBlocks(index: nat, ghost rest: seq<byte>, input: seq<byte>) returns (i: nat)
      requires buffer.Length == 64 && index == |rest| < 64 && buffer[..index] == rest
      requires 64 - index <= |input| && index + |input| < TWO_32
      modifies this`state, buffer
      ensures i <= |input| < i + 64 && (i + index) % 64 == 0
      ensures state == Fold(T, old(state), rest + input) && Rest(rest + input) == input[i..]
    {
      hide Fold, Rest, Whole;
      var partLen := 64 - index;
      Copy(index, input[..partLen]);
      assert buffer[..] == rest + input[..partLen];
      assert rest + input == buffer[..] + input[partLen..];
      FoldOne(T, state, buffer[..], input[partLen..]);
      RestOne(buffer[..], input[partLen..]);
      state := T(state, buffer[..]);
      i := partLen;
      while Guard(i, |input|)
        invariant partLen <= i <= |input| && (i + index) % 64 == 0
        invariant Fold(T, old(state), rest + input) == Fold(T, state, input[i..])
        invariant Rest(rest + input) == Rest(input[i..])
        decreases |input| - i
      {
        if i + 63 >= |input| {
          GuardIsExact(index, |input|, i);
        }
        LoopStep(T, state, input, i);
        state := T(state, input[i..i + 64]);
        i := i + 64;
      }
      FoldRest(T, state, input[i..]);
    }

    /** `MD5Final`: pad, append the length as it was before padding, and clear the context. */
    method Final(ghost m: seq<byte>) returns (digest: seq<byte>)
      requires Holds(m)
      modifies this, buffer
      ensures digest == Digest(T, m)
      ensures state == Words(0, 0, 0, 0) && lo == 0 && hi == 0
      ensures forall i :: 0 <= i < buffer.Length ==> buffer[i] == 0
    {
      hide Fold, Rest, CountIs, EncodeWord, Padding, Padded, LengthBits;
      var bits := EncodeWord(lo) + EncodeWord(hi);
      CountBits(|m|, lo, hi);
      IndexOf(|m|, lo, hi);
      var index := lo / 8 % 64;
      var padLen := if index < 56 then 56 - index else 120 - index;
      Update(m, Padding(padLen));
      Update(m + Padding(padLen), bits);
      PaddedParts(m);
      digest := EncodeWords(state);
      state, lo, hi := Words(0, 0, 0, 0), 0, 0;
      var i := 0;
      while i < buffer.Length
        invariant 0 <= i <= buffer.Length
        invariant forall j :: 0 <= j < i ==> buffer[j] == 0
        modifies buffer
      {
        buffer[i] := 0;
        i := i + 1;
      }
    }
  }

  lemma PaddedParts(m: seq<byte>)
    ensures Padded(m) == m + Padding(PadLength(|m|)) + LengthBits(|m|)
    ensures |m + Padding(PadLength(|m|))| % 64 == 56
  {
  }

  lemma SameDigit0(x: nat, y: nat, k: nat)
    requires x == y + k * 0x1_0000_0000
    ensures x % 256 == y % 256
  {
    assert x == y + 256 * (k * 0x100_0000);
  }

  lemma SameDigit1(x: nat, y: nat, k: nat)
    requires x == y + k * 0x1_0000_0000
    ensures x / 0x100 % 256 == y / 0x100 % 256
  {
    assert x / 0x100 == y / 0x100 + 256 * (k * 0x1_0000);
  }

  lemma SameDigit2(x: nat, y: nat, k: nat)
    requires x == y + k * 0x1_0000_0000
    ensures x / 0x1_0000 % 256 == y / 0x1_0000 % 256
  {
    assert x / 0x1_0000 == y / 0x1_0000 + 256 * (k * 0x100);
  }

  lemma SameDigit3(x: nat, y: nat, k: nat)
    requires x == y + k * 0x1_0000_0000
    ensures x / 0x100_0000 % 256 == y / 0x100_0000 % 256
  {
    assert x / 0x100_0000 == y / 0x100_0000 + 256 * k;
  }

  /** Only the low 32 bits of a number show in its four octets. */
  lemma SameDigits(x: nat, y: nat, k: nat)
    requires x == y + k * 0x1_0000_0000
    ensures EncodeWord(x) == EncodeWord(y)
  {
    SameDigit1(x, y, k);
    SameDigit2(x, y, k);
    SameDigit3(x, y, k);
    SameDigit0(x, y, k);
  }

  lemma FourDigits(v: nat)
    ensures LittleEndian(v, 4) == EncodeWord(v)
    ensures LittleEndian(v, 8) == EncodeWord(v) + EncodeWord(v / 0x1_0000_0000)
  {
    FourThen(v, 0);
    assert EncodeWord(v) + [] == EncodeWord(v);
    FourThen(v, 4);
    FourThen(v / 0x1_0000_0000, 0);
    assert EncodeWord(v / 0x1_0000_0000) + [] == EncodeWord(v / 0x1_0000_0000);
  }

  lemma FourThen(v: nat, k: nat)
    ensures LittleEndian(v, k + 4) == EncodeWord(v) + LittleEndian(v / 0x1_0000_0000, k)
  {
    var a := v / 256;
    var b := a / 256;
    var c := b / 256;
    assert c / 256 == v / 0x1_0000_0000 && c == v / 0x100_0000 && b == v / 0x1_0000;
    assert LittleEndian(c, k + 1) == [c % 256] + LittleEndian(c / 256, k);
    assert LittleEndian(b, k + 2) == [b % 256] + LittleEndian(c, k + 1);
    assert LittleEndian(a, k + 3) == [a % 256] + LittleEndian(b, k + 2);
    assert LittleEndian(v, k + 4) == [v % 256] + LittleEndian(a, k + 3);
  }

  /** The two count words, encoded, are the length in bits modulo 2^64. */
  lemma CountBits(n: nat, lo: nat, hi: nat)
    requires CountIs(n, lo, hi)
    ensures EncodeWord(lo) + EncodeWord(hi) == LengthBits(n)
  {
    hide EncodeWord, LittleEndian;
    var v := 8 * n % TWO_64;
    var q := 8 * n / TWO_64;
    assert 8 * n == q * 0x1_0000_0000_0000_0000 + v;
    FourDigits(v);
    var top := v / 0x1_0000_0000;
    assert v % 0x1_0000_0000 == lo by { assert 8 * n == (q * 0x1_0000_0000 + top) * 0x1_0000_0000 + v % 0x1_0000_0000; }
    SameDigits(v, lo, top);
    assert 8 * n / 0x1_0000_0000 == q * 0x1_0000_0000 + top;
    assert hi == top;
  }

  function Concat(pieces: seq<seq<byte>>): seq<byte> {
    if pieces == [] then [] else pieces[0] + Concat(pieces[1..])
  }

  /** Whatever way a message is cut into pieces, and for any block transform, the digest is
      that of the whole message. */
  method DigestOfPieces(T: BlockFunction, pieces: seq<seq<byte>>) returns (digest: seq<byte>)
    requires forall i :: 0 <= i < |pieces| ==> |pieces[i]| <= TWO_32 - 64
    ensures digest == Digest(T, Concat(pieces))
  {
    hide *;
    var c := new Context(T);
    ghost var m: seq<byte> := [];
    var i := 0;
    assert pieces[0..] == pieces && [] + Concat(pieces) == Concat(pieces);
    while i < |pieces|
      invariant i <= |pieces| && c.Holds(m) && c.T == T && fresh(c) && fresh(c.buffer)
      invariant m + Concat(pieces[i..]) == Concat(pieces)
    {
      ConcatStep(pieces, i);
      Fits(|m|, |pieces[i]|);
      assert m + (pieces[i] + Concat(pieces[i + 1..])) == m + pieces[i] + Concat(pieces[i + 1..]);
      c.Update(m, pieces[i]);
      m := m + pieces[i];
      i := i + 1;
    }
    ConcatNone(pieces);
    assert m + [] == m;
    digest := c.Final(m);
  }

  lemma ConcatStep(pieces: seq<seq<byte>>, i: nat)
    requires i < |pieces|
    ensures Concat(pieces[i..]) == pieces[i] + Concat(pieces[i + 1..])
  {
    assert pieces[i..][1..] == pieces[i + 1..];
  }

  lemma ConcatNone(pieces: seq<seq<byte>>)
    ensures Concat(pieces[|pieces|..]) == []
  {
  }

  lemma Fits(n: nat, len: nat)
    requires len <= TWO_32 - 64
    ensures n % 64 + len < TWO_32
  {
  }

  /** In particular for the transform of RFC 1321. */
  method Md5OfPieces(pieces: seq<seq<byte>>) returns (digest: seq<byte>)
    requires forall i :: 0 <= i < |pieces| ==> |pieces[i]| <= TWO_32 - 64
    ensures digest == Digest(Transform, Concat(pieces))
  {
    hide Transform;
    digest := DigestOfPieces(Transform, pieces);
  }
}
