/** Numbers as little-endian bit sequences, and the bitwise operators the bitstream reader uses.
    The operators are defined one bit at a time, so that their laws are inductions on the bit count. */
module Bits {

  const U32: nat := 0x1_0000_0000
  const U64: nat := 0x1_0000_0000_0000_0000

  function Pow2(n: nat): (r: nat)
    ensures r >= 1
  {
    if n == 0 then 1 else 2 * Pow2(n - 1)
  }

  lemma {:induction false} Pow2Monotonic(a: nat, b: nat)
    requires a <= b
    ensures Pow2(a) <= Pow2(b)
    ensures a < b ==> 2 * Pow2(a) <= Pow2(b)
  {
    if a < b {
      Pow2Monotonic(a, b - 1);
    }
  }

  lemma Pow2Words()
    ensures Pow2(8) == 256 && Pow2(32) == U32 && Pow2(64) == U64
  {
    assert Pow2(8) == 256;
    assert Pow2(16) == 0x1_0000;
    assert Pow2(24) == 0x100_0000;
    assert Pow2(32) == U32;
    assert Pow2(40) == 0x100_0000_0000;
    assert Pow2(48) == 0x1_0000_0000_0000;
    assert Pow2(56) == 0x100_0000_0000_0000;
  }

  // ----- bit sequences -----

  /** The number a bit sequence denotes, least significant bit first. */
  function Val(s: seq<bool>): nat {
    if s == [] then 0 else (if s[0] then 1 else 0) + 2 * Val(s[1..])
  }

  /** The low n bits of v, least significant bit first. */
  function Enc(v: nat, n: nat): (s: seq<bool>)
    ensures |s| == n
  {
    if n == 0 then [] else [v % 2 == 1] + Enc(v / 2, n - 1)
  }

  lemma {:induction false} ValBound(s: seq<bool>)
    ensures Val(s) < Pow2(|s|)
  {
    if s != [] {
      ValBound(s[1..]);
    }
  }

  lemma {:induction false} ValEnc(v: nat, n: nat)
    requires v < Pow2(n)
    ensures Val(Enc(v, n)) == v
  {
    if n > 0 {
      ValEnc(v / 2, n - 1);
      assert Enc(v, n)[1..] == Enc(v / 2, n - 1);
    }
  }

  lemma {:induction false} ValSnoc(s: seq<bool>, b: bool)
    ensures Val(s + [b]) == Val(s) + (if b then Pow2(|s|) else 0)
  {
    if s == [] {
      assert (s + [b])[1..] == [];
    } else {
      assert (s + [b])[1..] == s[1..] + [b];
      ValSnoc(s[1..], b);
    }
  }

  // ----- operators -----

  /** Bitwise or. */
  function Or(a: nat, b: nat): nat {
    if a == 0 && b == 0 then 0
    else (if a % 2 == 1 || b % 2 == 1 then 1 else 0) + 2 * Or(a / 2, b / 2)
  }

  function Shl(v: nat, k: nat): nat {
    if k == 0 then v else 2 * Shl(v, k - 1)
  }

  function Shr(v: nat, k: nat): nat {
    if k == 0 then v else Shr(v / 2, k - 1)
  }

  /** The low n bits, as a mask of n ones keeps them. */
  function Low(v: nat, n: nat): (r: nat)
    ensures r < Pow2(n)
  {
    if n == 0 then 0 else v % 2 + 2 * Low(v / 2, n - 1)
  }

  /** Left shift of a 64-bit word by k < 64: the bits that would pass bit 63 are lost. */
  function Shl64(v: nat, k: nat): nat
    requires k < 64
  {
    Shl(Low(v, 64 - k), k)
  }

  /** Bit k, as `(v >> k) & 1` reads it. */
  predicate BitSet(v: nat, k: nat) {
    if k == 0 then v % 2 == 1 else BitSet(v / 2, k - 1)
  }

  lemma {:induction false} OrZero(a: nat)
    ensures Or(a, 0) == a == Or(0, a)
  {
    if a > 0 {
      OrZero(a / 2);
    }
  }

  /** Or of numbers without a common bit is their sum. */
  lemma {:induction false} OrDisjoint(a: nat, b: nat, k: nat)
    requires a < Pow2(k)
    ensures Or(a, Shl(b, k)) == a + Shl(b, k)
  {
    if k == 0 {
      OrZero(b);
    } else {
      OrDisjoint(a / 2, b, k - 1);
    }
  }

  lemma {:induction false} LowSmall(v: nat, n: nat)
    requires v < Pow2(n)
    ensures Low(v, n) == v
  {
    if n > 0 {
      LowSmall(v / 2, n - 1);
    }
  }

  /** A number is its low n bits and the rest shifted up again. */
  lemma {:induction false} Split(v: nat, n: nat)
    ensures v == Low(v, n) + Shl(Shr(v, n), n)
  {
    if n > 0 {
      Split(v / 2, n - 1);
    }
  }

  /** The top bit of an (n+1)-bit number. */
  lemma {:induction false} TopBit(v: nat, n: nat)
    requires v < Pow2(n + 1)
    ensures BitSet(v, n) <==> v >= Pow2(n)
    ensures Low(v, n) == if v < Pow2(n) then v else v - Pow2(n)
  {
    if n > 0 {
      TopBit(v / 2, n - 1);
    }
  }

  lemma {:induction false} ShlAdd(a: nat, b: nat, k: nat)
    ensures Shl(a + b, k) == Shl(a, k) + Shl(b, k)
  {
    if k > 0 {
      ShlAdd(a, b, k - 1);
    }
  }

  lemma {:induction false} ShlShl(v: nat, a: nat, b: nat)
    ensures Shl(Shl(v, a), b) == Shl(v, a + b)
  {
    if b > 0 {
      ShlShl(v, a, b - 1);
    }
  }

  lemma {:induction false} ShlBound(v: nat, n: nat, k: nat)
    ensures v < Pow2(n) <==> Shl(v, k) < Pow2(n + k)
    ensures v > 0 ==> Shl(v, k) >= Pow2(k)
    ensures v == 0 ==> Shl(v, k) == 0
  {
    if k > 0 {
      ShlBound(v, n, k - 1);
    }
  }

  lemma ConcatAssociative<T>(a: seq<T>, b: seq<T>, c: seq<T>)
    ensures a + b + c == a + (b + c)
  {
  }

  // ----- encodings at a position -----

  /** The encoding e stands in bits at position pos. */
  predicate At(bits: seq<bool>, pos: nat, e: seq<bool>) {
    pos + |e| <= |bits| && bits[pos..pos + |e|] == e
  }

  lemma AtSplit(bits: seq<bool>, pos: nat, a: seq<bool>, b: seq<bool>)
    requires At(bits, pos, a + b)
    ensures At(bits, pos, a) && At(bits, pos + |a|, b)
  {
    var m := pos + |a|;
    assert bits[pos..m] == bits[pos..pos + |a + b|][..|a|];
    assert (a + b)[..|a|] == a;
    assert bits[m..m + |b|] == bits[pos..pos + |a + b|][|a|..];
    assert (a + b)[|a|..] == b;
  }

  // ----- bytes -----

  type byte = x: nat | x < 256

  /** The bits of a byte string in the order the reader meets them. */
  function BitsOf(data: seq<byte>): (s: seq<bool>)
    ensures |s| == 8 * |data|
  {
    seq(8 * |data|, i requires 0 <= i < 8 * |data| => BitSet(data[i / 8], i % 8))
  }
}
