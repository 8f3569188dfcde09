/** Swift's 64-bit `Int`, the time and id type of the virtual-time scheduler. */
module Integers {

  const MinInt: int := -0x8000_0000_0000_0000
  const MaxInt: int := 0x7fff_ffff_ffff_ffff
  /** Number of distinct `Int` values; `&+` works modulo this. */
  const Modulus: nat := 0x1_0000_0000_0000_0000

  newtype Int = x: int | MinInt <= x <= MaxInt

  /** `Int.max`, the start value of the minimum scan in `getNext`. */
  const IntMax: Int := 0x7fff_ffff_ffff_ffff

  function Max(a: Int, b: Int): Int {
    if a >= b then a else b
  }

  /** `x &+ 1`: two's-complement increment that wraps from `Int.max` to `Int.min`. */
  function WrappingIncrement(x: Int): (r: Int)
    ensures x as int < MaxInt ==> r as int == x as int + 1
    ensures x as int == MaxInt ==> r as int == MinInt
  {
    if x == IntMax then MinInt as Int else x + 1
  }

  /** The value of an id counter that started at 0 after `n` wrapping increments. */
  ghost function Wrap(n: nat): Int
    decreases n
  {
    if n == 0 then 0 else WrappingIncrement(Wrap(n - 1))
  }

  /** Within one period the counter is `n` until it passes `Int.max`, and `n - 2^64` after. */
  lemma {:induction false} WrapClosedForm(n: nat)
    requires n < Modulus
    ensures Wrap(n) as int == if n <= MaxInt then n else n - Modulus
  {
    if n > 0 {
      WrapClosedForm(n - 1);
    }
  }

  /** Fewer than 2^64 increments never repeat a counter value. */
  lemma WrapInjective(a: nat, b: nat)
    requires a < Modulus && b < Modulus && a != b
    ensures Wrap(a) != Wrap(b)
  {
    WrapClosedForm(a);
    WrapClosedForm(b);
  }

  /** A run of strictly increasing serial numbers below 2^64 yields pairwise distinct ids. */
  lemma DistinctSerialsGiveDistinctIds(serials: seq<nat>)
    requires forall i, j :: 0 <= i < j < |serials| ==> serials[i] < serials[j]
    requires forall i :: 0 <= i < |serials| ==> serials[i] < Modulus
    ensures forall i, j :: 0 <= i < j < |serials| ==> Wrap(serials[i]) != Wrap(serials[j])
  {
    forall i, j | 0 <= i < j < |serials|
      ensures Wrap(serials[i]) != Wrap(serials[j])
    {
      WrapInjective(serials[i], serials[j]);
    }
  }
}
