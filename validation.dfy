/**
 * Length validation at the start of `transformRadix2`: the real and
 * imaginary vectors must have the same length, `levels` is computed as
 * floor(log2(n)) by repeated halving, and the length must equal
 * `1u << levels`.  Both failures are reported before anything is written.
 */
module Validation {
  import opened BitReversal

  /** The two string exceptions `transformRadix2` throws, as error kinds. */
  datatype FftError = MismatchedLengths | InvalidLength

  datatype Result<T> = Success(value: T) | Failure(error: FftError)

  /** Width of `unsigned int`, the type of `1u << levels`. */
  const UINT_BITS: nat := 32

  /** floor(log2(n)) for n >= 1, and 0 for n = 0. */
  ghost function Log2Floor(n: nat): nat
  {
    if n <= 1 then 0 else 1 + Log2Floor(n / 2)
  }

  /** n lies between 2^levels and 2^(levels+1). */
  lemma {:induction false} Log2FloorBounds(n: nat)
    requires n >= 1
    ensures Pow2(Log2Floor(n)) <= n < Pow2(Log2Floor(n) + 1)
  {
    if n > 1 {
      Log2FloorBounds(n / 2);
    }
  }

  /** Log2Floor(n) is the largest m with 2^m <= n. */
  lemma Log2FloorIsLargest(n: nat, m: nat)
    requires Pow2(m) <= n
    ensures m <= Log2Floor(n)
  {
    Log2FloorBounds(n);
    if m > Log2Floor(n) {
      if m > Log2Floor(n) + 1 {
        Pow2Monotone(Log2Floor(n) + 1, m);
      }
    }
  }

  ghost predicate IsPowerOfTwo(n: nat)
  {
    exists k: nat :: Pow2(k) == n
  }

  /**
   * The check `(1u << levels) != n` rejects exactly the lengths that are
   * not powers of two, n = 0 among them.
   */
  lemma PowerOfTwoCheck(n: nat)
    ensures IsPowerOfTwo(n) <==> Pow2(Log2Floor(n)) == n
  {
    if IsPowerOfTwo(n) {
      var k: nat :| Pow2(k) == n;
      Log2FloorIsLargest(n, k);
      if k < Log2Floor(n) {
        Log2FloorBounds(n);
        Pow2Monotone(k, Log2Floor(n));
      }
    }
  }

  /** An n below 2^w has floor(log2(n)) below w. */
  lemma LevelsBelow(n: nat, levels: nat, w: nat)
    requires Pow2(levels) <= n < Pow2(w)
    ensures levels < w
  {
    if levels >= w {
      if levels > w {
        Pow2Monotone(w, levels);
      }
    }
  }

  /** The bounds 2^levels <= n < 2^(levels+1) pin levels down. */
  lemma LevelsIsLog2Floor(n: nat, levels: nat)
    requires Pow2(levels) <= n < Pow2(levels + 1)
    ensures levels == Log2Floor(n)
  {
    Log2FloorBounds(n);
    Log2FloorIsLargest(n, levels);
    if levels < Log2Floor(n) {
      Pow2Monotone(levels + 1, Log2Floor(n));
    }
  }

  /** levels = floor(log2(n)) by halving a copy of n until it is at most 1. */
  method ComputeLevels(n: nat) returns (levels: nat)
    ensures n == 0 ==> levels == 0
    ensures n >= 1 ==> Pow2(levels) <= n < Pow2(levels + 1)
  {
    var temp := n;
    levels := 0;
    while temp > 1
      invariant temp == 0 <==> n == 0
      invariant levels + Log2Floor(temp) == Log2Floor(n)
    {
      levels := levels + 1;
      temp := temp / 2;
    }
    if n >= 1 {
      Log2FloorBounds(n);
    }
  }

  /**
   * The checks before any mutation: mismatched lengths first, then the
   * power-of-two test.  On success the result is levels, with
   * 2^levels == n; levels is below the width of unsigned, so
   * `1u << levels` is the exact power.
   */
  method CheckLengths(realLength: nat, imagLength: nat) returns (r: Result<nat>)
    requires realLength == imagLength ==> realLength < Pow2(UINT_BITS)
    ensures realLength != imagLength ==> r == Failure(MismatchedLengths)
    ensures realLength == imagLength && !IsPowerOfTwo(realLength) ==> r == Failure(InvalidLength)
    ensures realLength == imagLength && IsPowerOfTwo(realLength) ==>
              r.Success? && Pow2(r.value) == realLength && r.value < UINT_BITS
  {
    if realLength != imagLength {
      return Failure(MismatchedLengths);
    }
    var n := realLength;
    var levels := ComputeLevels(n);
    if n >= 1 {
      LevelsBelow(n, levels, UINT_BITS);
      LevelsIsLog2Floor(n, levels);
    }
    PowerOfTwoCheck(n);
    if Pow2(levels) != n {
      return Failure(InvalidLength);
    }
    return Success(levels);
  }
}
