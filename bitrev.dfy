/**
 * Bit reversal of array indices, as used by the radix-2 FFT's
 * decimation-in-time reordering (`reverseBits` in fft.cpp).
 *
 * `Rev(x, n)` is the specification: the low `n` bits of `x` written in
 * the opposite order.  `Bits` gives an independent, bit-list view of a
 * number, and the lemmas show that `Rev` reverses that list, stays below
 * `2^n`, is its own inverse on `[0, 2^n)` and hence a bijection there.
 * `ReverseBits` is the shifting loop of `reverseBits`, proved against `Rev`.
 */
module BitReversal {

  /** Width of `size_t` on the 64-bit platforms fft.cpp targets. */
  const SIZE_T_BITS: nat := 64

  /** 2 to the power k. */
  function Pow2(k: nat): (p: nat)
    ensures p >= 1
  {
    if k == 0 then 1 else 2 * Pow2(k - 1)
  }

  lemma {:induction false} Pow2Add(a: nat, b: nat)
    ensures Pow2(a + b) == Pow2(a) * Pow2(b)
  {
    if a > 0 {
      Pow2Add(a - 1, b);
      assert Pow2(a + b) == 2 * Pow2(a - 1 + b);
    }
  }

  lemma {:induction false} Pow2Monotone(a: nat, b: nat)
    requires a < b
    ensures Pow2(a) < Pow2(b)
  {
    if a + 1 < b {
      Pow2Monotone(a, b - 1);
    }
  }

  /** The low n bits of x, least significant first. */
  function Bits(x: nat, n: nat): (bs: seq<bool>)
    ensures |bs| == n
  {
    if n == 0 then [] else [x % 2 == 1] + Bits(x / 2, n - 1)
  }

  /** The elements of s in the opposite order. */
  function Reverse<T>(s: seq<T>): (r: seq<T>)
    ensures |r| == |s|
  {
    seq(|s|, i requires 0 <= i < |s| => s[|s| - 1 - i])
  }

  /**
   * The low n bits of x in reverse order: bit 0 of x becomes bit n-1 of
   * the result, and bits of x at position n or above are dropped.
   */
  function Rev(x: nat, n: nat): (r: nat)
    ensures r < Pow2(n)
  {
    if n == 0 then 0
    else Rev(x / 2, n - 1) + (if x % 2 == 1 then Pow2(n - 1) else 0)
  }

  /** Setting bit n of a number below 2^n appends that bit to its list. */
  lemma {:induction false} BitsSetTop(v: nat, b: bool, n: nat)
    requires v < Pow2(n)
    ensures Bits(v + (if b then Pow2(n) else 0), n + 1) == Bits(v, n) + [b]
  {
    var w := v + (if b then Pow2(n) else 0);
    if n == 0 {
      assert v == 0;
    } else {
      var top := if b then Pow2(n - 1) else 0;
      assert w % 2 == v % 2 && w / 2 == v / 2 + top;
      BitsSetTop(v / 2, b, n - 1);
      calc {
        Bits(w, n + 1);
        [w % 2 == 1] + Bits(w / 2, n);
        [v % 2 == 1] + (Bits(v / 2, n - 1) + [b]);
        ([v % 2 == 1] + Bits(v / 2, n - 1)) + [b];
        Bits(v, n) + [b];
      }
    }
  }

  /** Rev reverses the list of the low n bits. */
  lemma {:induction false} BitsOfRev(x: nat, n: nat)
    ensures Bits(Rev(x, n), n) == Reverse(Bits(x, n))
  {
    if n > 0 {
      BitsOfRev(x / 2, n - 1);
      BitsSetTop(Rev(x / 2, n - 1), x % 2 == 1, n - 1);
      var tail := Bits(x / 2, n - 1);
      assert Bits(x, n) == [x % 2 == 1] + tail;
      assert Reverse([x % 2 == 1] + tail) == Reverse(tail) + [x % 2 == 1];
    }
  }

  /** Below 2^n a number is determined by its low n bits. */
  lemma {:induction false} BitsInjective(x: nat, y: nat, n: nat)
    requires x < Pow2(n) && y < Pow2(n)
    requires Bits(x, n) == Bits(y, n)
    ensures x == y
  {
    if n > 0 {
      assert Bits(x, n)[0] == Bits(y, n)[0];
      assert Bits(x, n)[1..] == Bits(x / 2, n - 1);
      assert Bits(y, n)[1..] == Bits(y / 2, n - 1);
      BitsInjective(x / 2, y / 2, n - 1);
    }
  }

  /** Reversing twice gives back every index below 2^n. */
  lemma RevInvolution(x: nat, n: nat)
    requires x < Pow2(n)
    ensures Rev(Rev(x, n), n) == x
  {
    BitsOfRev(x, n);
    BitsOfRev(Rev(x, n), n);
    assert Reverse(Reverse(Bits(x, n))) == Bits(x, n);
    BitsInjective(Rev(Rev(x, n), n), x, n);
  }

  /** Index 0 is its own reversal, and the only index below 2^n whose reversal is 0. */
  lemma {:induction false} RevZero(x: nat, n: nat)
    requires x < Pow2(n)
    ensures Rev(x, n) == 0 <==> x == 0
  {
    if n > 0 {
      RevZero(0, n - 1);
    }
    if Rev(x, n) == 0 {
      RevInvolution(x, n);
    }
  }

  /** Rev is one-to-one on [0, 2^n). */
  lemma RevInjective(x: nat, y: nat, n: nat)
    requires x < Pow2(n) && y < Pow2(n)
    requires Rev(x, n) == Rev(y, n)
    ensures x == y
  {
    RevInvolution(x, n);
    RevInvolution(y, n);
  }

  /** Every index below 2^n is the reversal of an index below 2^n. */
  lemma RevSurjective(y: nat, n: nat)
    requires y < Pow2(n)
    ensures exists x: nat :: x < Pow2(n) && Rev(x, n) == y
  {
    RevInvolution(y, n);
    assert Rev(Rev(y, n), n) == y;
  }

  /** One turn of the shifting loop moves one bit from x into the result. */
  lemma RevAccumulate(acc: nat, y: nat, m: nat)
    requires m >= 1
    ensures acc * Pow2(m) + Rev(y, m)
         == (2 * acc + y % 2) * Pow2(m - 1) + Rev(y / 2, m - 1)
  {
    var p := Pow2(m - 1);
    assert Pow2(m) == 2 * p;
    assert acc * (2 * p) == (2 * acc) * p;
    if y % 2 == 1 {
      assert (2 * acc + 1) * p == (2 * acc) * p + p;
    }
  }

  /** After one more turn the result stays below 2^(i+1), which is at most 2^n. */
  lemma ShiftInBound(n: nat, i: nat, acc: nat, bit: nat)
    requires i < n && acc < Pow2(i) && bit <= 1
    ensures 2 * acc + bit < Pow2(i + 1) <= Pow2(n)
  {
    assert Pow2(i + 1) == 2 * Pow2(i);
    if i + 1 < n {
      Pow2Monotone(i + 1, n);
    }
  }

  /** After one more turn the invariant linking the result to Rev(x, n) still holds. */
  lemma ShiftInBit(x: nat, n: nat, i: nat, acc: nat, xs: nat)
    requires i < n
    requires acc * Pow2(n - i) + Rev(xs, n - i) == Rev(x, n)
    ensures (2 * acc + xs % 2) * Pow2(n - (i + 1)) + Rev(xs / 2, n - (i + 1)) == Rev(x, n)
  {
    var m := n - i;
    RevAccumulate(acc, xs, m);
    assert m - 1 == n - (i + 1);
  }

  /** A number below the modulus is its own remainder. */
  lemma ModBelow(a: nat, m: nat)
    requires a < m
    ensures a % m == a
  {
  }

  /**
   * The state of the shifting loop after i turns, when n fits in size_t:
   * the result holds the reversal of the i bits consumed so far, and
   * together with the bits still in xs it makes up Rev(x, n).
   */
  ghost predicate Accumulated(x: nat, n: nat, i: nat, result: nat, xs: nat)
    requires i <= n
  {
    n <= SIZE_T_BITS ==> result < Pow2(i) && result * Pow2(n - i) + Rev(xs, n - i) == Rev(x, n)
  }

  /** One turn of the loop, in size_t arithmetic, keeps the loop state. */
  lemma ShiftIn(x: nat, n: nat, i: nat, result: nat, xs: nat)
    requires i < n && Accumulated(x, n, i, result, xs)
    ensures Accumulated(x, n, i + 1, (2 * result + xs % 2) % Pow2(SIZE_T_BITS), xs / 2)
  {
    if n <= SIZE_T_BITS {
      ShiftInBound(n, i, result, xs % 2);
      if n < SIZE_T_BITS {
        Pow2Monotone(n, SIZE_T_BITS);
      }
      ShiftInBit(x, n, i, result, xs);
      ModBelow(2 * result + xs % 2, Pow2(SIZE_T_BITS));
    }
  }

  /**
   * reverseBits(x, n): shifts the low bit of x into the result n times,
   * in size_t arithmetic, so a shift of the result drops its top bit.  For
   * n up to the width of size_t no bit is ever dropped and the result is
   * the reversal of the low n bits of x; for any n it stays below 2^64.
   */
  method ReverseBits(x: nat, n: nat) returns (result: nat)
    ensures result < Pow2(SIZE_T_BITS)
    ensures n <= SIZE_T_BITS ==> result == Rev(x, n)
  {
    result := 0;
    var xs := x;
    var i := 0;
    while i < n
      invariant 0 <= i <= n
      invariant result < Pow2(SIZE_T_BITS)
      invariant Accumulated(x, n, i, result, xs)
    {
      ShiftIn(x, n, i, result, xs);
      result := (2 * result + xs % 2) % Pow2(SIZE_T_BITS);
      xs := xs / 2;
      i := i + 1;
    }
  }
}
