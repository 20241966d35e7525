/** SHA-1 as a function of the whole message: the padding of section 4, and the functions, constants
    and computation of sections 5 to 7, of FIPS 180-1. Messages are sequences of octets. */
module Sha1Spec {
  import opened Numerals

  newtype Octet = n: int | 0 <= n < 0x100

  const BLOCK: nat := 64

  /** The number that two 32-bit words make up. */
  function Joined(high: nat, low: nat): (n: nat)
  {
    high * TWO_32 + low
  }

  /** The operations on words that the computation is built from. The algorithm is stated for any such
      operations, so that reasoning about it never has to look inside a 32-bit adder; `WORDS` below is
      the arithmetic the standard prescribes. */
  datatype Alu<!W> = Alu(
    plus: (W, W) -> W,
    and: (W, W) -> W,
    or: (W, W) -> W,
    xor: (W, W) -> W,
    not: W -> W,
    shift1: W -> W,       // circular left shift by 1
    shift5: W -> W,
    shift30: W -> W,
    word: (Octet, Octet, Octet, Octet) -> W,
    k0: W, k1: W, k2: W, k3: W)

  function Plus(x: bv32, y: bv32): bv32 { x + y }
  function And(x: bv32, y: bv32): bv32 { x & y }
  function Or(x: bv32, y: bv32): bv32 { x | y }
  function Xor(x: bv32, y: bv32): bv32 { x ^ y }
  function Not(x: bv32): bv32 { !x }
  function Shift1(x: bv32): bv32 { (x << 1) | (x >> 31) }
  function Shift5(x: bv32): bv32 { (x << 5) | (x >> 27) }
  function Shift30(x: bv32): bv32 { (x << 30) | (x >> 2) }

  /** Four octets, most significant first, as one word. */
  function Join(p: Octet, q: Octet, r: Octet, s: Octet): bv32
  {
    (p as bv32 << 24) | (q as bv32 << 16) | (r as bv32 << 8) | s as bv32
  }

  const WORDS: Alu<bv32> :=
    Alu(Plus, And, Or, Xor, Not, Shift1, Shift5, Shift30, Join, 0x5A827999, 0x6ED9EBA1, 0x8F1BBCDC, 0xCA62C1D6)

  /** Five words: the chaining value H0..H4, and the working variables A..E. */
  datatype Five<W> = Five(a: W, b: W, c: W, d: W, e: W)

  const INITIAL: Five<bv32> := Five(0x67452301, 0xEFCDAB89, 0x98BADCFE, 0x10325476, 0xC3D2E1F0)

  /** The first `n` words of the sequence W of section 7. */
  ghost function Schedule<W>(u: Alu<W>, block: seq<Octet>, n: nat): (w: seq<W>)
    requires |block| == BLOCK && n <= 80
    ensures |w| == n
  {
    if n == 0 then []
    else
      var t := n - 1;
      var w := Schedule(u, block, t);
      w + [if t < 16 then u.word(block[4 * t], block[4 * t + 1], block[4 * t + 2], block[4 * t + 3])
           else u.shift1(u.xor(u.xor(u.xor(w[t - 3], w[t - 8]), w[t - 14]), w[t - 16]))]
  }

  ghost function F<W>(u: Alu<W>, t: nat, b: W, c: W, d: W): (r: W)
    requires t < 80
  {
    if t < 20 then u.or(u.and(b, c), u.and(u.not(b), d))
    else if 40 <= t < 60 then u.or(u.or(u.and(b, c), u.and(b, d)), u.and(c, d))
    else u.xor(u.xor(b, c), d)
  }

  ghost function K<W>(u: Alu<W>, t: nat): (r: W)
    requires t < 80
  {
    if t < 20 then u.k0 else if t < 40 then u.k1 else if t < 60 then u.k2 else u.k3
  }

  ghost function Round<W>(u: Alu<W>, t: nat, w: W, v: Five<W>): (r: Five<W>)
    requires t < 80
  {
    var temp := u.plus(u.plus(u.plus(u.plus(u.shift5(v.a), F(u, t, v.b, v.c, v.d)), v.e), w), K(u, t));
    Five(temp, v.a, u.shift30(v.b), v.c, v.d)
  }

  /** The working variables after `t` rounds. */
  ghost function Rounds<W>(u: Alu<W>, w: seq<W>, h: Five<W>, t: nat): (v: Five<W>)
    requires t <= |w| == 80
  {
    if t == 0 then h else Round(u, t - 1, w[t - 1], Rounds(u, w, h, t - 1))
  }

  ghost function Compress<W>(u: Alu<W>, h: Five<W>, block: seq<Octet>): (r: Five<W>)
    requires |block| == BLOCK
  {
    var v := Rounds(u, Schedule(u, block, 80), h, 80);
    Five(u.plus(h.a, v.a), u.plus(h.b, v.b), u.plus(h.c, v.c), u.plus(h.d, v.d), u.plus(h.e, v.e))
  }

  /** The blocks of `s`, processed in order. */
  ghost function Fold<W>(u: Alu<W>, h: Five<W>, s: seq<Octet>): (r: Five<W>)
    decreases |s|
  {
    if |s| < BLOCK then h else Compress(u, Fold(u, h, s[..|s| - BLOCK]), s[|s| - BLOCK..])
  }

  function Zeros(n: nat): (s: seq<Octet>)
    ensures |s| == n && forall i :: 0 <= i < n ==> s[i] == 0
  {
    if n == 0 then [] else Zeros(n - 1) + [0]
  }

  function OctetOf(n: nat): (o: Octet)
  {
    (n % 0x100) as Octet
  }

  /** A word below 2^32, most significant octet first. */
  function WordOctets(n: nat): (s: seq<Octet>)
    ensures |s| == 4
  {
    [OctetOf(n / 0x100_0000), OctetOf(n / 0x1_0000), OctetOf(n / 0x100), OctetOf(n)]
  }

  /** The two-word representation of a bit length. */
  function LengthOctets(bits: nat): (s: seq<Octet>)
    ensures |s| == 8
  {
    WordOctets(bits / TWO_32) + WordOctets(bits % TWO_32)
  }

  /** The number of zero octets between the 1 bit and the length: the least that completes a block. */
  function PadZeros(n: nat): (z: nat)
  {
    (119 - n % BLOCK) % BLOCK
  }

  /** Padding completes a block, and no other number of zero octets below a block's worth does. */
  lemma PadZerosUnique(n: nat, z: nat, k: nat)
    requires z < BLOCK
    ensures n + 1 + z + 8 == BLOCK * k ==> z == PadZeros(n)
    ensures z == PadZeros(n) ==> n + 1 + z + 8 == BLOCK * ((n + 72) / BLOCK)
  {
    PadZerosCases(n, n / 64, n % 64);
  }

  lemma PadZerosCases(n: nat, q: nat, r: nat)
    requires n == 64 * q + r && r < 64
    ensures PadZeros(n) == if r <= 55 then 55 - r else 119 - r
    ensures (n + 72) / BLOCK == if r <= 55 then q + 1 else q + 2
  {
    assert n % 64 == r;
  }

  function Pad(m: seq<Octet>): (s: seq<Octet>)
  {
    m + [0x80] + Zeros(PadZeros(|m|)) + LengthOctets(8 * |m|)
  }

  ghost function Sha1(m: seq<Octet>): (h: Five<bv32>)
  {
    Fold(WORDS, INITIAL, Pad(m))
  }

  lemma FoldBlock<W>(u: Alu<W>, h: Five<W>, s: seq<Octet>, b: seq<Octet>)
    requires |b| == BLOCK
    ensures Fold(u, h, s + b) == Compress(u, Fold(u, h, s), b)
  {
    assert (s + b)[..|s|] == s && (s + b)[|s|..] == b;
  }

  /** The padding of a message whose bit length is given as two words. */
  lemma PadWithWords(m: seq<Octet>, high: nat, low: nat)
    requires Joined(high, low) == 8 * |m| && low < TWO_32
    ensures Pad(m) == m + [0x80] + Zeros(PadZeros(|m|)) + (WordOctets(high) + WordOctets(low))
  {
    assert (high * TWO_32 + low) / TWO_32 == high;
  }

  lemma ZerosConcat(a: nat, b: nat)
    ensures Zeros(a) + Zeros(b) == Zeros(a + b)
  {
    assert |Zeros(a) + Zeros(b)| == |Zeros(a + b)|;
  }
}
