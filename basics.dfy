/**
 * Shared vocabulary: an optional value (C# null), the machine integer ranges
 * the resolver works with, and the first-match search that every instruction
 * scanner of the resolver is an instance of.
 */
module Basics {

  /** A value that may be absent; None plays the part of a C# null reference. */
  datatype Option<+T> = None | Some(value: T)

  /** C# `int`. */
  type Int32 = x: int | -0x8000_0000 <= x < 0x8000_0000

  /** An unsigned 16-bit assembly version component. */
  type UInt16 = x: int | 0 <= x < 0x1_0000

  /** An element of a field's initial-value blob. */
  type Byte = x: int | 0 <= x < 0x100

  /**
   * The value C#'s unchecked 32-bit arithmetic yields for the mathematical
   * result x: the unique Int32 congruent to x modulo 2^32.
   */
  function Wrap32(x: int): (r: Int32)
    ensures (r - x) % 0x1_0000_0000 == 0
    ensures -0x8000_0000 <= x < 0x8000_0000 ==> r == x
  {
    var m := x % 0x1_0000_0000;
    if m < 0x8000_0000 then m else m - 0x1_0000_0000
  }

  /**
   * The bitwise or of two non-negative integers, bit by bit from the least
   * significant end. It lies between the larger operand and the sum.
   */
  function BitOr(a: nat, b: nat): (r: nat)
    decreases a + b
    ensures a <= r && b <= r && r <= a + b
  {
    if a == 0 then b
    else if b == 0 then a
    else 2 * BitOr(a / 2, b / 2) + (if a % 2 == 1 || b % 2 == 1 then 1 else 0)
  }

  /** Bit n of x in binary: `(x >> n) & 1 == 1`. */
  function Bit(x: nat, n: nat): bool {
    if n == 0 then x % 2 == 1 else Bit(x / 2, n - 1)
  }

  /** BitOr is the bitwise or: each bit of the result is the or of the operands' bits. */
  lemma {:induction false} BitOrBits(a: nat, b: nat, n: nat)
    decreases n
    ensures Bit(BitOr(a, b), n) <==> Bit(a, n) || Bit(b, n)
  {
    if a == 0 {
      ZeroHasNoBits(n);
    } else if b == 0 {
      ZeroHasNoBits(n);
    } else {
      var e := if a % 2 == 1 || b % 2 == 1 then 1 else 0;
      var x := BitOr(a / 2, b / 2);
      assert BitOr(a, b) == 2 * x + e;
      assert (2 * x + e) % 2 == e && (2 * x + e) / 2 == x;
      if n > 0 {
        BitOrBits(a / 2, b / 2, n - 1);
      }
    }
  }

  lemma {:induction false} ZeroHasNoBits(n: nat)
    ensures !Bit(0, n)
  {
    if n > 0 {
      ZeroHasNoBits(n - 1);
    }
  }

  /** Multiplying by 2^s shifts the bits s places up: `(x << s) >> n` for n >= s. */
  lemma {:induction false} ShiftedBits(x: nat, s: nat, n: nat)
    decreases s
    ensures Bit(Pow2(s) * x, n) <==> n >= s && Bit(x, n - s)
  {
    if s > 0 {
      var y := Pow2(s - 1) * x;
      assert Pow2(s) * x == 2 * y;
      assert (2 * y) % 2 == 0 && (2 * y) / 2 == y;
      if n > 0 {
        ShiftedBits(x, s - 1, n - 1);
      }
    }
  }

  function Pow2(s: nat): (r: nat)
    ensures r > 0
  {
    if s == 0 then 1 else 2 * Pow2(s - 1)
  }

  /**
   * The smallest position in [lo, hi) at which p holds, if any. This is the
   * shape of every early-return `for` loop of the resolver: positions that do
   * not match are skipped, the first one that does is the answer.
   */
  function FirstMatch(p: nat -> bool, lo: nat, hi: nat): (r: Option<nat>)
    decreases hi - lo
    ensures r.Some? ==> lo <= r.value < hi && p(r.value)
    ensures r.Some? ==> forall j: nat :: lo <= j < r.value ==> !p(j)
    ensures r.None? <==> forall j: nat :: lo <= j < hi ==> !p(j)
  {
    if lo >= hi then None
    else if p(lo) then Some(lo)
    else FirstMatch(p, lo + 1, hi)
  }
}
