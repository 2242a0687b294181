/**
 * Unsigned integer and bit arithmetic shared by both cache simulators.
 *
 * Machine words are modelled as unbounded naturals; every place where the
 * source relies on a fixed width (a 32-bit mask, a 64-bit subtraction that
 * wraps) says so explicitly with the constants below.  A right shift
 * `x >> k` is `x / 2^k`, a bitwise `&` is BitAnd, and a `std::bitset` is a
 * sequence of booleans, least significant bit first.
 */
module Bits {

  const U8: nat := 0x100
  const U32: nat := 0x1_0000_0000
  const U64: nat := 0x1_0000_0000_0000_0000

  function Pow2(n: nat): (r: nat)
    ensures r >= 1
  {
    if n == 0 then 1 else 2 * Pow2(n - 1)
  }

  function Min(a: nat, b: nat): nat
  {
    if a <= b then a else b
  }

  /** `x++` on a uint32 counter: wraps from 2^32 - 1 to 0. */
  function Inc32(x: nat): nat
  {
    (x + 1) % U32
  }

  /** x is 2^k for some k (1 included, 0 excluded). */
  predicate PowerOfTwo(x: nat)
  {
    x == 1 || (x > 1 && x % 2 == 0 && PowerOfTwo(x / 2))
  }

  /** Integer replacement for `(uint32_t) std::log2(x)` on a positive argument. */
  function FloorLog2(x: nat): (r: nat)
    requires x >= 1
    ensures Pow2(r) <= x < Pow2(r + 1)
  {
    if x == 1 then 0 else 1 + FloorLog2(x / 2)
  }

  /** Right shift of an unsigned value. */
  function Shr(x: nat, k: nat): nat
  {
    DivFloor(x, Pow2(k))
  }

  /** Unsigned division. */
  function DivFloor(x: nat, d: nat): nat
    requires d >= 1
  {
    x / d
  }

  /** Bitwise and of two unsigned values, bit by bit from the least significant one. */
  function BitAnd(a: nat, b: nat): nat
  {
    if a == 0 || b == 0 then 0
    else 2 * BitAnd(a / 2, b / 2) + (if a % 2 == 1 && b % 2 == 1 then 1 else 0)
  }

  /** The value of `Cache::mask(n)`: n ones, saturating at the 32 bits of its result. */
  function AllOnes(n: nat): nat
  {
    Pow2(Min(n, 32)) - 1
  }

  // ---------------------------------------------------------------------------
  // Powers of two
  // ---------------------------------------------------------------------------

  lemma {:induction false} Pow2Add(a: nat, b: nat)
    ensures Pow2(a + b) == Pow2(a) * Pow2(b)
  {
    if a > 0 {
      Pow2Add(a - 1, b);
    }
  }

  lemma {:induction false} Pow2Monotone(a: nat, b: nat)
    requires a <= b
    ensures Pow2(a) <= Pow2(b)
  {
    if a < b {
      Pow2Monotone(a, b - 1);
    }
  }

  lemma {:induction false} Pow2IsPowerOfTwo(n: nat)
    ensures PowerOfTwo(Pow2(n))
  {
    if n > 0 {
      Pow2IsPowerOfTwo(n - 1);
      assert Pow2(n) / 2 == Pow2(n - 1);
    }
  }

  /** On a power of two the floor logarithm is exact. */
  lemma {:induction false} FloorLog2Exact(x: nat)
    requires PowerOfTwo(x)
    ensures Pow2(FloorLog2(x)) == x
  {
    if x != 1 {
      FloorLog2Exact(x / 2);
    }
  }

  lemma {:induction false} FloorLog2OfPow2(n: nat)
    ensures FloorLog2(Pow2(n)) == n
  {
    if n > 0 {
      assert Pow2(n) / 2 == Pow2(n - 1);
      FloorLog2OfPow2(n - 1);
    }
  }

  // ---------------------------------------------------------------------------
  // Division and remainder by powers of two
  // ---------------------------------------------------------------------------

  lemma Pow2Is32()
    ensures Pow2(32) == U32
  {
    assert Pow2(4) == 16;
    Pow2Add(4, 4);
    Pow2Add(8, 8);
    Pow2Add(16, 16);
  }

  lemma Pow2Is64()
    ensures Pow2(64) == U64
  {
    Pow2Is32();
    Pow2Add(32, 32);
  }

  lemma Pow2Is60()
    ensures Pow2(60) == 0x1000_0000_0000_0000
  {
    Pow2Is64();
    assert Pow2(4) == 16;
    Pow2Add(60, 4);
  }

  lemma MulAtLeast(a: int, k: int)
    requires a > 0 && k >= 1
    ensures a * k >= a
  {
    assert a * k == a * (k - 1) + a;
  }

  /** Quotient and remainder are determined by any decomposition x == a*q + r with 0 <= r < a. */
  lemma DivModUnique(x: int, a: int, q: int, r: int)
    requires a > 0 && 0 <= r < a && x == a * q + r
    ensures x / a == q && x % a == r
  {
    var q0 := x / a;
    var r0 := x % a;
    var d, e := q0 - q, q - q0;
    assert a * q0 + r0 == a * q + r;
    assert a * d == r - r0 by {
      assert a * d == a * q0 - a * q;
    }
    assert a * e == r0 - r by {
      assert a * e == a * q - a * q0;
    }
    if d > 0 {
      MulAtLeast(a, d);
      assert false;
    }
    if e > 0 {
      MulAtLeast(a, e);
      assert false;
    }
  }

  lemma DivDiv(x: nat, a: nat, b: nat)
    requires a >= 1 && b >= 1
    ensures x / a / b == x / (a * b)
  {
    var q1 := x / a;
    var q2 := q1 / b;
    var r2 := q1 % b;
    MulMod(x, a, b);
    assert a * q1 == (a * b) * q2 + a * r2 by {
      assert q1 == b * q2 + r2;
      assert a * (b * q2 + r2) == a * (b * q2) + a * r2;
    }
    DivModUnique(x, a * b, q2, x % (a * b));
  }

  lemma ModMod(x: nat, a: nat, b: nat)
    requires a >= 1 && b >= 1
    ensures x % (a * b) % a == x % a
  {
    var q := x / (a * b);
    var r := x % (a * b);
    assert x == (a * b) * q + r;
    var q3 := r / a;
    var r3 := r % a;
    assert r == a * q3 + r3;
    assert x == a * (b * q + q3) + r3 by {
      assert (a * b) * q == a * (b * q);
    }
    DivModUnique(x, a, b * q + q3, r3);
  }

  lemma MulMod(x: nat, a: nat, b: nat)
    requires a >= 1 && b >= 1
    ensures x % (a * b) == x % a + a * (x / a % b)
  {
    var q := x / a;
    var r := x % a;
    var qq := q / b;
    var qr := q % b;
    assert x == a * q + r;
    assert q == b * qq + qr;
    assert a * q == (a * b) * qq + a * qr by {
      calc {
        a * q;
        a * (b * qq + qr);
        a * (b * qq) + a * qr;
        (a * b) * qq + a * qr;
      }
    }
    assert a * qr + r < a * b by {
      assert qr <= b - 1;
      assert a * qr <= a * (b - 1);
      assert a * (b - 1) == a * b - a;
    }
    DivModUnique(x, a * b, qq, a * qr + r);
  }

  /** Two adjacent fields: the value modulo 2^(m+n) splits into its low m bits
      and the next n bits. */
  lemma SplitMod(x: nat, m: nat, n: nat)
    ensures x % Pow2(m + n) == x % Pow2(m) + Pow2(m) * (x / Pow2(m) % Pow2(n))
  {
    Pow2Add(m, n);
    MulMod(x, Pow2(m), Pow2(n));
  }

  lemma {:induction false} ShrShr(x: nat, a: nat, b: nat)
    ensures Shr(Shr(x, a), b) == Shr(x, a + b)
  {
    Pow2Add(a, b);
    DivDiv(x, Pow2(a), Pow2(b));
  }

  lemma ModLessPow2(x: nat, n: nat)
    ensures x % Pow2(n) < Pow2(n)
  {
  }

  // ---------------------------------------------------------------------------
  // Bitwise and
  // ---------------------------------------------------------------------------

  lemma {:induction false} BitAndSelf(x: nat)
    ensures BitAnd(x, x) == x
  {
    if x > 0 {
      BitAndSelf(x / 2);
    }
  }

  /** `x & mask` with an all-ones mask of n bits keeps exactly the low n bits. */
  lemma {:induction false} BitAndLowMask(x: nat, n: nat)
    ensures BitAnd(x, Pow2(n) - 1) == x % Pow2(n)
  {
    if n == 0 {
      assert Pow2(n) - 1 == 0;
    } else if x == 0 {
    } else {
      var p := Pow2(n - 1);
      var m := Pow2(n) - 1;
      assert m == 2 * (p - 1) + 1;
      DivModUnique(m, 2, p - 1, 1);
      BitAndLowMask(x / 2, n - 1);
      assert BitAnd(x, m) == 2 * ((x / 2) % p) + x % 2;
      SplitMod(x, 1, n - 1);
      assert Pow2(1) == 2 && 1 + (n - 1) == n;
      assert x % Pow2(n) == x % 2 + 2 * ((x / 2) % p);
    }
  }

  lemma BitAndAllOnes(x: nat, n: nat)
    ensures BitAnd(x, AllOnes(n)) == x % Pow2(Min(n, 32))
  {
    BitAndLowMask(x, Min(n, 32));
  }

  /** `x & (x - 1)` is zero on a positive x exactly when x is a power of two. */
  lemma {:induction false} BitAndPredecessor(x: nat)
    requires x >= 1
    ensures BitAnd(x, x - 1) == 0 <==> PowerOfTwo(x)
  {
    if x == 1 {
    } else if x % 2 == 0 {
      var y := x / 2;
      assert (x - 1) / 2 == y - 1 && (x - 1) % 2 == 1;
      BitAndPredecessor(y);
      assert BitAnd(x, x - 1) == 2 * BitAnd(y, y - 1);
    } else {
      var y := x / 2;
      assert (x - 1) / 2 == y && (x - 1) % 2 == 0 && y >= 1;
      BitAndSelf(y);
      assert BitAnd(x, x - 1) == 2 * y;
    }
  }

  // ---------------------------------------------------------------------------
  // Bitwise or and left shift
  // ---------------------------------------------------------------------------

  /** Bitwise or of two unsigned values, bit by bit from the least significant one. */
  function BitOr(a: nat, b: nat): nat
  {
    if a == 0 then b
    else if b == 0 then a
    else 2 * BitOr(a / 2, b / 2) + (if a % 2 == 1 || b % 2 == 1 then 1 else 0)
  }

  /** `x << k` on a 64-bit unsigned value: bits shifted past bit 63 are lost. */
  function Shl64(x: nat, k: nat): nat
  {
    x * Pow2(k) % U64
  }

  /** Or-ing a value into the zero low bits of a shifted one is addition. */
  lemma {:induction false} BitOrShifted(hi: nat, lo: nat, n: nat)
    requires lo < Pow2(n)
    ensures BitOr(hi * Pow2(n), lo) == hi * Pow2(n) + lo
  {
    if n > 0 && hi > 0 && lo > 0 {
      var a := hi * Pow2(n);
      assert a == 2 * (hi * Pow2(n - 1));
      assert a / 2 == hi * Pow2(n - 1) && a % 2 == 0;
      BitOrShifted(hi, lo / 2, n - 1);
    }
  }

  // ---------------------------------------------------------------------------
  // Bitsets: sequences of bits, least significant first
  // ---------------------------------------------------------------------------

  /** The value of a bitset (`std::bitset::to_ulong`). */
  function FromBits(bs: seq<bool>): nat
  {
    if |bs| == 0 then 0 else (if bs[0] then 1 else 0) + 2 * FromBits(bs[1..])
  }

  /** The n low bits of x as a bitset (`std::bitset<n>(x)`). */
  function ToBits(x: nat, n: nat): (bs: seq<bool>)
    ensures |bs| == n
  {
    if n == 0 then [] else [x % 2 == 1] + ToBits(x / 2, n - 1)
  }

  lemma {:induction false} FromBitsBound(bs: seq<bool>)
    ensures FromBits(bs) < Pow2(|bs|)
  {
    if |bs| > 0 {
      FromBitsBound(bs[1..]);
    }
  }

  /** Building a bitset from a value and reading it back keeps its low n bits. */
  lemma {:induction false} FromToBits(x: nat, n: nat)
    ensures FromBits(ToBits(x, n)) == x % Pow2(n)
  {
    if n > 0 {
      FromToBits(x / 2, n - 1);
      assert ToBits(x, n)[1..] == ToBits(x / 2, n - 1);
      SplitMod(x, 1, n - 1);
    }
  }

  lemma {:induction false} FromBitsShr(bs: seq<bool>, k: nat)
    requires k <= |bs|
    ensures Shr(FromBits(bs), k) == FromBits(bs[k..])
  {
    if k > 0 {
      FromBitsShr(bs[1..], k - 1);
      assert bs[1..][k - 1..] == bs[k..];
      ShrShr(FromBits(bs), 1, k - 1);
    }
  }

  /** Dropping the lowest bit of a bitset halves its value. */
  lemma FromBitsHead(bs: seq<bool>)
    requires |bs| > 0
    ensures FromBits(bs) % 2 == (if bs[0] then 1 else 0)
    ensures FromBits(bs) / 2 == FromBits(bs[1..])
  {
    DivModUnique(FromBits(bs), 2, FromBits(bs[1..]), if bs[0] then 1 else 0);
  }

  lemma {:induction false} FromBitsMod(bs: seq<bool>, k: nat)
    requires k <= |bs|
    ensures FromBits(bs) % Pow2(k) == FromBits(bs[..k])
  {
    if k > 0 {
      var rest := bs[1..];
      FromBitsMod(rest, k - 1);
      FromBitsHead(bs);
      SplitMod(FromBits(bs), 1, k - 1);
      assert bs[..k][0] == bs[0];
      assert bs[..k][1..] == rest[..k - 1];
      assert FromBits(bs[..k]) == (if bs[0] then 1 else 0) + 2 * FromBits(rest[..k - 1]);
    }
  }

  /** The field of width n at offset k of a bitset's value is the value of that slice. */
  lemma FromBitsField(bs: seq<bool>, k: nat, n: nat)
    requires k + n <= |bs|
    ensures Shr(FromBits(bs), k) % Pow2(n) == FromBits(bs[k..k + n])
  {
    FromBitsShr(bs, k);
    FromBitsMod(bs[k..], n);
    assert bs[k..][..n] == bs[k..k + n];
  }

  /** Equal slices give equal values. */
  lemma FromBitsSliceEq(a: seq<bool>, b: seq<bool>, lo: nat, hi: nat)
    requires lo <= hi <= |a| && hi <= |b|
    requires forall i :: lo <= i < hi ==> a[i] == b[i]
    ensures FromBits(a[lo..hi]) == FromBits(b[lo..hi])
  {
    assert a[lo..hi] == b[lo..hi];
  }
}
