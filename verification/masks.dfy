/**
 `list_to_mask` and `mask_to_list`: the conversion between a list of
 pixel-format numbers and the bit mask the pre-2.16 native call expects.

 Python integers are unbounded two's-complement values, so `m & 1 << n`
 is non-zero exactly when bit n of m is set, for negative m too; `Bit`
 states that with floor division by two, which is what Dafny's `/` does
 for a positive divisor.
 */
module Masks {
  import opened Types

  function Pow2(n: nat): (p: nat)
    ensures p >= 1
  {
    if n == 0 then 1 else 2 * Pow2(n - 1)
  }

  /** Whether `m & 1 << n` is non-zero. */
  predicate Bit(m: int, n: nat)
    decreases n
  {
    if n == 0 then m % 2 == 1 else Bit(m / 2, n - 1)
  }

  /** `a | b` on non-negative integers. */
  function BitOr(a: nat, b: nat): nat
    decreases a + b
  {
    if a == 0 then b
    else if b == 0 then a
    else 2 * BitOr(a / 2, b / 2) + (if a % 2 == 1 || b % 2 == 1 then 1 else 0)
  }

  /** Setting bit b of the accumulator for each entry b of xs in turn,
      starting from acc; defined for non-negative entries only. */
  function SetBits(acc: nat, xs: seq<int>): nat
    requires forall i :: 0 <= i < |xs| ==> xs[i] >= 0
    decreases |xs|
  {
    if xs == [] then acc else SetBits(BitOr(acc, Pow2(xs[0])), xs[1..])
  }

  predicate NonNegative(xs: seq<int>)
  {
    forall i :: 0 <= i < |xs| ==> xs[i] >= 0
  }

  /** `list_to_mask(xs)`. A negative entry makes `1 << b` raise
      ValueError("negative shift count"). */
  function ListToMask(xs: seq<int>): (r: Result<nat>)
    ensures r.Failure? <==> exists i :: 0 <= i < |xs| && xs[i] < 0
    ensures r.Failure? ==> r.error.ValueError?
    // the mask has exactly the listed bits set
    ensures r.Success? ==> forall n: nat :: Bit(r.value, n) <==> n in xs
  {
    if NonNegative(xs) then
      SetBitsBits(0, xs);
      assert forall n: nat :: !Bit(0, n) by {
        forall n: nat { BitZero(n); }
      }
      Success(SetBits(0, xs))
    else
      Failure(ValueError("negative shift count"))
  }

  /** The bit positions from `from` up to `numBits` that are set in m,
      in increasing order. */
  function BitsFrom(m: int, from: nat, numBits: int): (r: seq<int>)
    ensures forall i :: 0 <= i < |r| ==> from <= r[i] < numBits
    ensures forall n :: n in r <==> from <= n < numBits && Bit(m, n)
    ensures forall i, j :: 0 <= i < j < |r| ==> r[i] < r[j]
    decreases numBits - from
  {
    if from >= numBits then []
    else (if Bit(m, from) then [from] else []) + BitsFrom(m, from + 1, numBits)
  }

  /** `mask_to_list(m, num_bits)`: the set bits of m below num_bits, in
      increasing order. */
  function MaskToList(m: int, numBits: int): (r: seq<int>)
    ensures forall i :: 0 <= i < |r| ==> 0 <= r[i] < numBits
    ensures forall n :: n in r <==> 0 <= n < numBits && Bit(m, n)
    ensures forall i, j :: 0 <= i < j < |r| ==> r[i] < r[j]
  {
    BitsFrom(m, 0, numBits)
  }

  // ---------------------------------------------------------------------
  // Bit facts

  lemma {:induction false} BitZero(n: nat)
    ensures !Bit(0, n)
    decreases n
  {
    if n > 0 {
      BitZero(n - 1);
    }
  }

  /** `1 << k` has exactly bit k set. */
  lemma {:induction false} BitPow2(k: nat, n: nat)
    ensures Bit(Pow2(k), n) <==> n == k
    decreases k
  {
    if k == 0 {
      if n > 0 {
        BitZero(n - 1);
      }
    } else if n > 0 {
      BitPow2(k - 1, n - 1);
    }
  }

  /** Bit n of `a | b` is set iff it is set in a or in b. */
  lemma {:induction false} BitOrBits(a: nat, b: nat, n: nat)
    ensures Bit(BitOr(a, b), n) <==> Bit(a, n) || Bit(b, n)
    decreases a + b
  {
    if a == 0 {
      BitZero(n);
    } else if b == 0 {
      BitZero(n);
    } else {
      var c := BitOr(a, b);
      var low := if a % 2 == 1 || b % 2 == 1 then 1 else 0;
      assert c == 2 * BitOr(a / 2, b / 2) + low;
      assert c / 2 == BitOr(a / 2, b / 2);
      if n > 0 {
        BitOrBits(a / 2, b / 2, n - 1);
      }
    }
  }

  lemma {:induction false} SetBitsBits(acc: nat, xs: seq<int>)
    requires NonNegative(xs)
    ensures forall n: nat :: Bit(SetBits(acc, xs), n) <==> Bit(acc, n) || n in xs
    decreases |xs|
  {
    if xs != [] {
      var acc' := BitOr(acc, Pow2(xs[0]));
      SetBitsBits(acc', xs[1..]);
      forall n: nat
        ensures Bit(SetBits(acc, xs), n) <==> Bit(acc, n) || n in xs
      {
        BitOrBits(acc, Pow2(xs[0]), n);
        BitPow2(xs[0], n);
        assert xs == [xs[0]] + xs[1..];
      }
    }
  }

  lemma {:induction false} BitOrBound(a: nat, b: nat, k: nat)
    requires a < Pow2(k) && b < Pow2(k)
    ensures BitOr(a, b) < Pow2(k)
    decreases a + b
  {
    if a != 0 && b != 0 {
      BitOrBound(a / 2, b / 2, k - 1);
    }
  }

  lemma {:induction false} Pow2Mono(j: nat, k: nat)
    requires j < k
    ensures Pow2(j) < Pow2(k)
    decreases k
  {
    if j < k - 1 {
      Pow2Mono(j, k - 1);
    }
  }

  lemma {:induction false} SetBitsBound(acc: nat, xs: seq<int>, k: nat)
    requires acc < Pow2(k)
    requires forall i :: 0 <= i < |xs| ==> 0 <= xs[i] < k
    ensures SetBits(acc, xs) < Pow2(k)
    decreases |xs|
  {
    if xs != [] {
      Pow2Mono(xs[0], k);
      BitOrBound(acc, Pow2(xs[0]), k);
      SetBitsBound(BitOr(acc, Pow2(xs[0])), xs[1..], k);
    }
  }

  /** Two numbers below 2^k with the same low k bits are equal. */
  lemma {:induction false} BitsDetermine(a: nat, b: nat, k: nat)
    requires a < Pow2(k) && b < Pow2(k)
    requires forall n: nat :: n < k ==> (Bit(a, n) <==> Bit(b, n))
    ensures a == b
    decreases k
  {
    if k > 0 {
      forall n: nat | n < k - 1
        ensures Bit(a / 2, n) <==> Bit(b / 2, n)
      {
        assert Bit(a, n + 1) <==> Bit(b, n + 1);
      }
      BitsDetermine(a / 2, b / 2, k - 1);
      assert Bit(a, 0) <==> Bit(b, 0);
    }
  }

  // ---------------------------------------------------------------------
  // Round trips

  /** `list_to_mask(mask_to_list(m)) == m` for every 64-bit mask. */
  lemma MaskRoundTrip(m: nat)
    requires m < Pow2(64)
    ensures ListToMask(MaskToList(m, 64)) == Success(m)
  {
    var xs := MaskToList(m, 64);
    var r := ListToMask(xs);
    assert r.Success?;
    SetBitsBound(0, xs, 64);
    assert r.value == SetBits(0, xs);
    forall n: nat | n < 64
      ensures Bit(r.value, n) <==> Bit(m, n)
    {
    }
    BitsDetermine(r.value, m, 64);
  }

  /** `mask_to_list(list_to_mask(xs))` lists each entry of xs once, in
      increasing order, and nothing else: the sorted, de-duplicated xs. */
  lemma ListRoundTrip(xs: seq<int>)
    requires forall i :: 0 <= i < |xs| ==> 0 <= xs[i] < 64
    ensures ListToMask(xs).Success?
    ensures var ys := MaskToList(ListToMask(xs).value, 64);
            && (forall n :: n in ys <==> n in xs)
            && (forall i, j :: 0 <= i < j < |ys| ==> ys[i] < ys[j])
  {
  }
}
