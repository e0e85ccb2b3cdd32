/**
 * `transformRadix2`: the in-place radix-2 FFT over a real and an imaginary
 * vector.  The length checks come first and leave both vectors untouched
 * when they fail; then the twiddle tables are built, the entries are put
 * in bit-reversed order and the butterfly network runs over them.
 *
 * `Transform` states the result as a function of the input: the network's
 * `Block` applied to the bit-reversed input.  The lemmas show that the
 * transform is linear, that its entry 0 is the sum of the input when the
 * table entry for k = 0 is cos 0 = 1, sin 0 = 0, and what it does on two
 * entries.
 */
module Fft {
  import opened BitReversal
  import opened Validation
  import opened Permutation
  import opened Butterfly

  /**
   * The transform of v, of length 2^levels, with the twiddle tables the
   * caller's cosine and sine give for that length.
   */
  function Transform(v: seq<Complex>, levels: nat, cosine: (nat, nat) -> real, sine: (nat, nat) -> real)
    : (r: seq<Complex>)
    requires |v| == Pow2(levels)
    ensures |r| == |v|
  {
    TableLengthIsHalf(levels);
    Block(BitReversed(v, levels), Twiddles(|v|, cosine, sine), levels, levels)
  }

  /** The complex vector held by the two arrays. */
  function Contents(y: Signal): (v: seq<Complex>)
    requires |y.re| == |y.im|
    ensures |v| == |y.re|
  {
    Window(y, 0, |y.re|)
  }

  /** Reordering both parts reorders the complex entries. */
  lemma ContentsBitReversed(x: Signal, levels: nat)
    requires Shaped(x, levels)
    ensures Contents(Signal(BitReversed(x.re, levels), BitReversed(x.im, levels)))
            == BitReversed(Contents(x), levels)
  {
    var lhs := Contents(Signal(BitReversed(x.re, levels), BitReversed(x.im, levels)));
    forall p | 0 <= p < Pow2(levels)
      ensures lhs[p] == BitReversed(Contents(x), levels)[p]
    {
      assert lhs[p] == At(x, Rev(p, levels));
    }
  }

  /**
   * transformRadix2(real, imag).  A length mismatch or a length that is
   * not a power of two is reported and nothing is written; otherwise the
   * outcome carries levels = log2(n) and the vectors hold the transform of
   * their old contents.
   */
  method TransformRadix2(re: array<real>, im: array<real>,
                         cosine: (nat, nat) -> real, sine: (nat, nat) -> real)
    returns (outcome: Result<nat>)
    requires re != im
    requires re.Length == im.Length ==> re.Length < Pow2(UINT_BITS)
    modifies re, im
    ensures re.Length != im.Length ==>
              outcome == Failure(MismatchedLengths) && re[..] == old(re[..]) && im[..] == old(im[..])
    ensures re.Length == im.Length && !IsPowerOfTwo(re.Length) ==>
              outcome == Failure(InvalidLength) && re[..] == old(re[..]) && im[..] == old(im[..])
    ensures re.Length == im.Length && IsPowerOfTwo(re.Length) ==>
              && outcome.Success? && Pow2(outcome.value) == re.Length
              && Contents(Signal(re[..], im[..]))
                 == Transform(old(Contents(Signal(re[..], im[..]))), outcome.value, cosine, sine)
  {
    var checked := CheckLengths(re.Length, im.Length);
    if checked.Failure? {
      return checked;
    }
    var levels := checked.value;
    var n := re.Length;
    var cosTable, sinTable := BuildTables(n, cosine, sine);
    ghost var x := Signal(re[..], im[..]);
    ghost var exchanged, pairs := BitReversePermutation(re, im, levels);
    ContentsBitReversed(x, levels);
    TableLengthIsHalf(levels);
    ghost var tw := Tables(cosTable[..], sinTable[..]);
    ghost var sizes, doubled := ButterflyNetwork(re, im, cosTable, sinTable, tw, levels);
    return Success(levels);
  }

  // ---------------------------------------------------------------------
  // Properties of the transform

  /** Bit reversal commutes with adding two vectors entry by entry. */
  lemma BitReversedAddAll(u: seq<Complex>, v: seq<Complex>, levels: nat)
    requires |u| == Pow2(levels) && |v| == Pow2(levels)
    ensures BitReversed(AddAll(u, v), levels) == AddAll(BitReversed(u, levels), BitReversed(v, levels))
  {
  }

  /** The transform of a sum is the sum of the transforms. */
  lemma TransformAdditive(u: seq<Complex>, v: seq<Complex>, levels: nat,
                          cosine: (nat, nat) -> real, sine: (nat, nat) -> real)
    requires |u| == Pow2(levels) && |v| == Pow2(levels)
    ensures Transform(AddAll(u, v), levels, cosine, sine)
            == AddAll(Transform(u, levels, cosine, sine), Transform(v, levels, cosine, sine))
  {
    TableLengthIsHalf(levels);
    BitReversedAddAll(u, v, levels);
    BlockAdditive(BitReversed(u, levels), BitReversed(v, levels), Twiddles(|u|, cosine, sine), levels, levels);
  }

  /** The transform of a vector scaled by a real c is the transform scaled by c. */
  lemma TransformHomogeneous(c: real, v: seq<Complex>, levels: nat,
                             cosine: (nat, nat) -> real, sine: (nat, nat) -> real)
    requires |v| == Pow2(levels)
    ensures Transform(ScaleAll(c, v), levels, cosine, sine) == ScaleAll(c, Transform(v, levels, cosine, sine))
  {
    TableLengthIsHalf(levels);
    assert BitReversed(ScaleAll(c, v), levels) == ScaleAll(c, BitReversed(v, levels));
    BlockHomogeneous(c, BitReversed(v, levels), Twiddles(|v|, cosine, sine), levels, levels);
  }

  /** Bit reversal only reorders: the multiset of entries is unchanged. */
  lemma BitReversedPermutes<T>(s: seq<T>, levels: nat)
    requires |s| == Pow2(levels)
    ensures multiset(BitReversed(s, levels)) == multiset(s)
  {
    var a := s;
    var i := 0;
    while i < |s|
      invariant 0 <= i <= |s| && |a| == |s|
      invariant PlacedBefore(a, s, levels, i)
      invariant multiset(a) == multiset(s)
    {
      PlacedStep(a, s, levels, i);
      var j := Rev(i, levels);
      if j > i {
        a := Swap(a, i, j);
      }
      i := i + 1;
    }
    PlacedComplete(a, s, levels);
  }

  /** Removing the entry at k removes one copy of it from the multiset. */
  lemma MultisetRemoveAt<T>(b: seq<T>, k: nat)
    requires k < |b|
    ensures multiset(b[..k] + b[k + 1..]) == multiset(b) - multiset{b[k]}
  {
    assert b == b[..k] + [b[k]] + b[k + 1..];
    assert multiset(b) == multiset(b[..k]) + multiset{b[k]} + multiset(b[k + 1..]);
  }

  /** The sum with x inserted between l and r is x plus the sum of l + r. */
  lemma TotalMiddle(l: seq<Complex>, x: Complex, r: seq<Complex>)
    ensures Total(l + [x] + r) == Plus(x, Total(l + r))
  {
    var zero := Complex(0.0, 0.0);
    var tl, tr := Total(l), Total(r);
    assert Total(l + [x]) == Plus(tl, Plus(x, zero)) by {
      assert [x][1..] == [];
      TotalConcat(l, [x]);
    }
    assert Total(l + [x] + r) == Plus(Total(l + [x]), tr) by {
      TotalConcat(l + [x], r);
    }
    assert Total(l + r) == Plus(tl, tr) by {
      TotalConcat(l, r);
    }
  }

  /** The sum is the entry at k plus the sum of the others. */
  lemma TotalRemoveAt(b: seq<Complex>, k: nat)
    requires k < |b|
    ensures Total(b) == Plus(b[k], Total(b[..k] + b[k + 1..]))
  {
    var l, r := b[..k], b[k + 1..];
    assert b == l + [b[k]] + r;
    TotalMiddle(l, b[k], r);
  }

  /** The sum of the entries does not depend on their order. */
  lemma {:induction false} TotalPermutation(a: seq<Complex>, b: seq<Complex>)
    requires multiset(a) == multiset(b)
    ensures Total(a) == Total(b)
  {
    if a != [] {
      assert a[0] in multiset(b);
      var k :| 0 <= k < |b| && b[k] == a[0];
      assert a == [a[0]] + a[1..];
      assert multiset(a[1..]) == multiset(a) - multiset{a[0]};
      MultisetRemoveAt(b, k);
      TotalPermutation(a[1..], b[..k] + b[k + 1..]);
      TotalRemoveAt(b, k);
    }
  }

  /**
   * Entry 0 of the transform (the zero-frequency term) is the sum of the
   * input, provided the table entry for k = 0 is cos 0 = 1 and sin 0 = 0.
   */
  lemma TransformSumAtZero(v: seq<Complex>, levels: nat,
                           cosine: (nat, nat) -> real, sine: (nat, nat) -> real)
    requires |v| == Pow2(levels)
    requires levels >= 1 ==> cosine(0, |v|) == 1.0 && sine(0, |v|) == 0.0
    ensures Transform(v, levels, cosine, sine)[0] == Total(v)
  {
    TableLengthIsHalf(levels);
    var tw := Twiddles(|v|, cosine, sine);
    if levels >= 1 {
      assert Pow2(levels) == 2 * Pow2(levels - 1);
    }
    BlockTotal(BitReversed(v, levels), tw, levels, levels);
    BitReversedPermutes(v, levels);
    TotalPermutation(BitReversed(v, levels), v);
  }

  /** The unit impulse is its own bit-reversed reordering. */
  lemma BitReversedImpulse(levels: nat)
    ensures BitReversed(Impulse(Pow2(levels)), levels) == Impulse(Pow2(levels))
  {
    var n := Pow2(levels);
    forall p | 0 <= p < n
      ensures BitReversed(Impulse(n), levels)[p] == Impulse(n)[p]
    {
      RevZero(p, levels);
    }
  }

  /** Whatever the twiddle factors, the transform of the unit impulse is all ones. */
  lemma TransformImpulse(levels: nat, cosine: (nat, nat) -> real, sine: (nat, nat) -> real)
    ensures Transform(Impulse(Pow2(levels)), levels, cosine, sine) == Ones(Pow2(levels))
  {
    BitReversedImpulse(levels);
    TableLengthIsHalf(levels);
    BlockImpulse(Twiddles(Pow2(levels), cosine, sine), levels, levels);
  }

  /** On a single entry no stage runs and the transform leaves it as it is. */
  lemma TransformSingle(v: seq<Complex>, cosine: (nat, nat) -> real, sine: (nat, nat) -> real)
    requires |v| == 1
    ensures Transform(v, 0, cosine, sine) == v
  {
    assert BitReversed(v, 0) == v;
  }

  /** On two entries the transform gives their sum and their difference. */
  lemma TransformTwoPoint(a: Complex, b: Complex, cosine: (nat, nat) -> real, sine: (nat, nat) -> real)
    requires cosine(0, 2) == 1.0 && sine(0, 2) == 0.0
    ensures Transform([a, b], 1, cosine, sine) == [Plus(a, b), Minus(a, b)]
  {
    assert Rev(1, 1) == 1;
    assert BitReversed([a, b], 1) == [a, b];
    TwoPoint(a, b, Twiddles(2, cosine, sine));
  }
}
