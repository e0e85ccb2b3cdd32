/**
 * The Cooley-Tukey decimation-in-time butterfly network of
 * `transformRadix2`, over exact reals, with the twiddle tables taken as
 * given values.
 *
 * A transform of length n = 2^levels runs stages s = 1 .. levels with
 * block size 2^s.  Stage s works on each block of 2^s entries on its own:
 * for every offset o below half the block, entry o of the upper half (the
 * top) and entry o of the lower half (the bottom) go through one butterfly
 * whose table index is o * n / 2^s.  `Block` states what stages 1 .. s
 * make of the contents of one block: stage s combines what the earlier
 * stages made of its two halves.  The loops of `transformRadix2` are
 * proved to compute exactly this, with every index in range; the lemmas
 * show that the network is linear, that entry 0 of a block ends up as the
 * sum of the block, and what a two-point network does.
 */
module Butterfly {
  import opened BitReversal

  datatype Complex = Complex(re: real, im: real)

  /** A complex vector kept, as `transformRadix2` keeps it, as its real and imaginary parts. */
  datatype Signal = Signal(re: seq<real>, im: seq<real>)

  /** cosTable and sinTable: entry k stands for cos and sin of 2*pi*k/n. */
  datatype Tables = Tables(cos: seq<real>, sin: seq<real>)

  /** Both parts of a signal hold 2^levels entries. */
  predicate Shaped(y: Signal, levels: nat)
  {
    |y.re| == Pow2(levels) && |y.im| == Pow2(levels)
  }

  /** n / 2 for n = 2^levels: the length of each twiddle table. */
  function TableLength(levels: nat): nat
  {
    if levels == 0 then 0 else Pow2(levels - 1)
  }

  lemma TableLengthIsHalf(levels: nat)
    ensures TableLength(levels) == Pow2(levels) / 2
  {
  }

  /** Twiddle tables for a transform of 2^levels entries. */
  predicate TablesFit(tw: Tables, levels: nat)
  {
    |tw.cos| == TableLength(levels) && |tw.sin| == TableLength(levels)
  }

  function At(y: Signal, p: nat): Complex
    requires p < |y.re| && p < |y.im|
  {
    Complex(y.re[p], y.im[p])
  }

  /** The len entries of y starting at b, as complex numbers. */
  function Window(y: Signal, b: nat, len: nat): (w: seq<Complex>)
    requires b + len <= |y.re| && b + len <= |y.im|
    ensures |w| == len
  {
    seq(len, o requires 0 <= o < len => At(y, b + o))
  }

  /** A window is its first h entries followed by the rest. */
  lemma WindowSplit(y: Signal, b: nat, h: nat, len: nat)
    requires h <= len && b + len <= |y.re| && b + len <= |y.im|
    ensures Window(y, b, len)[..h] == Window(y, b, h)
    ensures Window(y, b, len)[h..] == Window(y, b + h, len - h)
  {
  }

  function Plus(a: Complex, b: Complex): Complex
  {
    Complex(a.re + b.re, a.im + b.im)
  }

  function Minus(a: Complex, b: Complex): Complex
  {
    Complex(a.re - b.re, a.im - b.im)
  }

  /** The product of two complex numbers. */
  function Mul(a: Complex, b: Complex): Complex
  {
    Complex(a.re * b.re - a.im * b.im, a.re * b.im + a.im * b.re)
  }

  /**
   * The twiddle product tpre + i*tpim of `transformRadix2`, written out on
   * the real and imaginary parts.
   */
  function Rotate(v: Complex, c: real, s: real): Complex
  {
    Complex(v.re * c + v.im * s, -v.re * s + v.im * c)
  }

  /** The twiddle product is v times the conjugate c - i*s of the table entry. */
  lemma RotateIsProduct(v: Complex, c: real, s: real)
    ensures Rotate(v, c, s) == Mul(v, Complex(c, -s))
  {
  }

  /**
   * One butterfly on top u and bottom v: the new top is u + t and the new
   * bottom u - t, where t is v rotated by the twiddle factor.
   */
  function Butterfly(u: Complex, v: Complex, c: real, s: real): (Complex, Complex)
  {
    var t := Rotate(v, c, s);
    (Plus(u, t), Minus(u, t))
  }

  /**
   * The sum of the two outputs is 2u and their difference is 2t, for t the
   * product of v with c - i*s: the butterfly loses nothing of u and t.
   */
  lemma ButterflyRecovers(u: Complex, v: Complex, c: real, s: real)
    ensures var r := Butterfly(u, v, c, s);
            && Plus(r.0, r.1) == ScaleBy(2.0, u)
            && Minus(r.0, r.1) == ScaleBy(2.0, Mul(v, Complex(c, -s)))
  {
    RotateIsProduct(v, c, s);
  }

  /** The twiddle tables for length n, from the caller's cosine and sine of 2*pi*k/n. */
  function Twiddles(n: nat, cosine: (nat, nat) -> real, sine: (nat, nat) -> real): (tw: Tables)
    ensures |tw.cos| == n / 2 && |tw.sin| == n / 2
    ensures forall k :: 0 <= k < n / 2 ==> tw.cos[k] == cosine(k, n) && tw.sin[k] == sine(k, n)
  {
    Tables(seq(n / 2, (k: int) requires 0 <= k < n / 2 => cosine(k, n)),
           seq(n / 2, (k: int) requires 0 <= k < n / 2 => sine(k, n)))
  }

  // ---------------------------------------------------------------------
  // Block starts and table indices: q << k

  /** q << k: q doubled k times. */
  function Shifted(q: nat, k: nat): nat
  {
    if k == 0 then q else 2 * Shifted(q, k - 1)
  }

  lemma {:induction false} ShiftedZero(k: nat)
    ensures Shifted(0, k) == 0
  {
    if k > 0 {
      ShiftedZero(k - 1);
    }
  }

  /** The next block start: (q + 1) << k == (q << k) + 2^k. */
  lemma {:induction false} ShiftedSucc(q: nat, k: nat)
    ensures Shifted(q + 1, k) == Shifted(q, k) + Pow2(k)
  {
    if k > 0 {
      ShiftedSucc(q, k - 1);
    }
  }

  /** Blocks of 2^k entries starting at q1 << k and q2 << k, q1 < q2, do not overlap. */
  lemma {:induction false} ShiftedMonotone(q1: nat, q2: nat, k: nat)
    requires q1 < q2
    ensures Shifted(q1, k) + Pow2(k) <= Shifted(q2, k)
  {
    if k > 0 {
      ShiftedMonotone(q1, q2, k - 1);
    }
  }

  /** A block of 2^k entries that starts below 2^m, k <= m, ends within 2^m. */
  lemma {:induction false} BlockFits(q: nat, k: nat, m: nat)
    requires k <= m && Shifted(q, k) < Pow2(m)
    ensures Shifted(q, k) + Pow2(k) <= Pow2(m)
  {
    if k > 0 {
      BlockFits(q, k - 1, m - 1);
    }
  }

  /** The block q << s splits into the blocks 2q and 2q + 1 of half the size. */
  lemma {:induction false} BlockHalves(q: nat, s: nat)
    requires s >= 1
    ensures Shifted(2 * q, s - 1) == Shifted(q, s)
    ensures Shifted(2 * q + 1, s - 1) == Shifted(q, s) + Pow2(s - 1)
  {
    if s > 1 {
      BlockHalves(q, s - 1);
    }
  }

  /** An offset below 2^a shifted by b stays below 2^(a+b). */
  lemma {:induction false} ShiftedBelow(o: nat, a: nat, b: nat)
    requires o < Pow2(a)
    ensures Shifted(o, b) < Pow2(a + b)
  {
    if b > 0 {
      ShiftedBelow(o, a, b - 1);
    }
  }

  lemma MulMonotone(a: nat, b: nat, c: nat)
    requires a <= b
    ensures a * c <= b * c
  {
  }

  /** Exact division: a quotient is determined by the product. */
  lemma DivExact(a: nat, b: nat, c: nat)
    requires b >= 1 && a == b * c
    ensures a / b == c
  {
    var q := a / b;
    assert a == q * b + a % b;
    if q < c {
      MulMonotone(q + 1, c, b);
    } else if q > c {
      MulMonotone(c + 1, q, b);
    }
  }

  /** The parameters of stage s: halfsize = size / 2 and tablestep = n / size, both powers of two. */
  lemma StageParameters(levels: nat, s: nat)
    requires 1 <= s <= levels
    ensures Pow2(s) / 2 == Pow2(s - 1)
    ensures Pow2(levels) / Pow2(s) == Pow2(levels - s)
  {
    Pow2Add(s, levels - s);
    assert s + (levels - s) == levels;
    DivExact(Pow2(levels), Pow2(s), Pow2(levels - s));
  }

  /**
   * The table index of the butterfly at offset i of a block in stage s:
   * i * n / 2^s, which the loop reaches by adding tablestep = 2^(levels-s)
   * once per offset.  It is always within the tables.
   */
  function TwiddleIndex(levels: nat, s: nat, i: nat): (k: nat)
    requires 1 <= s <= levels && i < Pow2(s - 1)
    ensures k < TableLength(levels)
  {
    ShiftedBelow(i, s - 1, levels - s);
    assert s - 1 + (levels - s) == levels - 1;
    Shifted(i, levels - s)
  }

  // ---------------------------------------------------------------------
  // The network, block by block

  /**
   * Entry o of the block that stage s makes from the half blocks lo and
   * hi: the top output (o below half) or the bottom output of the
   * butterfly at offset o mod half.
   */
  function CombineAt(lo: seq<Complex>, hi: seq<Complex>, tw: Tables, levels: nat, s: nat, o: nat): Complex
    requires 1 <= s <= levels && TablesFit(tw, levels)
    requires |lo| == Pow2(s - 1) && |hi| == Pow2(s - 1) && o < Pow2(s)
  {
    var half := Pow2(s - 1);
    var i := if o < half then o else o - half;
    var k := TwiddleIndex(levels, s, i);
    var out := Butterfly(lo[i], hi[i], tw.cos[k], tw.sin[k]);
    if o < half then out.0 else out.1
  }

  /** The block that stage s makes from its two half blocks. */
  function Combine(lo: seq<Complex>, hi: seq<Complex>, tw: Tables, levels: nat, s: nat): (r: seq<Complex>)
    requires 1 <= s <= levels && TablesFit(tw, levels)
    requires |lo| == Pow2(s - 1) && |hi| == Pow2(s - 1)
    ensures |r| == Pow2(s)
  {
    seq(Pow2(s), o requires 0 <= o < Pow2(s) => CombineAt(lo, hi, tw, levels, s, o))
  }

  /** What stages 1 .. s of a transform of 2^levels entries make of a block v of 2^s entries. */
  function Block(v: seq<Complex>, tw: Tables, levels: nat, s: nat): (r: seq<Complex>)
    requires TablesFit(tw, levels) && s <= levels && |v| == Pow2(s)
    ensures |r| == Pow2(s)
  {
    if s == 0 then v
    else
      var half := Pow2(s - 1);
      Combine(Block(v[..half], tw, levels, s - 1), Block(v[half..], tw, levels, s - 1), tw, levels, s)
  }

  // ---------------------------------------------------------------------
  // Linearity

  function AddAll(u: seq<Complex>, v: seq<Complex>): (w: seq<Complex>)
    requires |u| == |v|
    ensures |w| == |u|
  {
    seq(|u|, i requires 0 <= i < |u| => Plus(u[i], v[i]))
  }

  function ScaleBy(c: real, v: Complex): Complex
  {
    Complex(c * v.re, c * v.im)
  }

  function ScaleAll(c: real, u: seq<Complex>): (w: seq<Complex>)
    ensures |w| == |u|
  {
    seq(|u|, i requires 0 <= i < |u| => ScaleBy(c, u[i]))
  }

  lemma Distributes(a: real, b: real, c: real)
    ensures (a + b) * c == a * c + b * c
    ensures -(a + b) * c == -a * c + -b * c
  {
  }

  lemma RotateAdditive(v1: Complex, v2: Complex, c: real, s: real)
    ensures Rotate(Plus(v1, v2), c, s) == Plus(Rotate(v1, c, s), Rotate(v2, c, s))
  {
    Distributes(v1.re, v2.re, c);
    Distributes(v1.im, v2.im, s);
    Distributes(v1.re, v2.re, s);
    Distributes(v1.im, v2.im, c);
  }

  lemma RotateHomogeneous(a: real, v: Complex, c: real, s: real)
    ensures Rotate(ScaleBy(a, v), c, s) == ScaleBy(a, Rotate(v, c, s))
  {
    assert a * v.re * c == a * (v.re * c);
    assert a * v.im * s == a * (v.im * s);
    assert -(a * v.re) * s == a * (-v.re * s);
    assert a * v.im * c == a * (v.im * c);
  }

  /** A butterfly of sums is the sum of the butterflies. */
  lemma ButterflyAdditive(u1: Complex, v1: Complex, u2: Complex, v2: Complex, c: real, s: real)
    ensures var b1, b2 := Butterfly(u1, v1, c, s), Butterfly(u2, v2, c, s);
            Butterfly(Plus(u1, u2), Plus(v1, v2), c, s) == (Plus(b1.0, b2.0), Plus(b1.1, b2.1))
  {
    RotateAdditive(v1, v2, c, s);
  }

  /** A butterfly of scaled inputs is the scaled butterfly. */
  lemma ButterflyHomogeneous(a: real, u: Complex, v: Complex, c: real, s: real)
    ensures var b := Butterfly(u, v, c, s);
            Butterfly(ScaleBy(a, u), ScaleBy(a, v), c, s) == (ScaleBy(a, b.0), ScaleBy(a, b.1))
  {
    RotateHomogeneous(a, v, c, s);
    var t := Rotate(v, c, s);
    assert Plus(ScaleBy(a, u), ScaleBy(a, t)) == ScaleBy(a, Plus(u, t)) by {
      assert a * u.re + a * t.re == a * (u.re + t.re);
      assert a * u.im + a * t.im == a * (u.im + t.im);
    }
    assert Minus(ScaleBy(a, u), ScaleBy(a, t)) == ScaleBy(a, Minus(u, t)) by {
      assert a * u.re - a * t.re == a * (u.re - t.re);
      assert a * u.im - a * t.im == a * (u.im - t.im);
    }
  }

  lemma CombineAdditive(lo1: seq<Complex>, hi1: seq<Complex>, lo2: seq<Complex>, hi2: seq<Complex>,
                        tw: Tables, levels: nat, s: nat)
    requires 1 <= s <= levels && TablesFit(tw, levels)
    requires |lo1| == |hi1| == |lo2| == |hi2| == Pow2(s - 1)
    ensures Combine(AddAll(lo1, lo2), AddAll(hi1, hi2), tw, levels, s)
            == AddAll(Combine(lo1, hi1, tw, levels, s), Combine(lo2, hi2, tw, levels, s))
  {
    var lhs := Combine(AddAll(lo1, lo2), AddAll(hi1, hi2), tw, levels, s);
    var rhs := AddAll(Combine(lo1, hi1, tw, levels, s), Combine(lo2, hi2, tw, levels, s));
    forall o | 0 <= o < Pow2(s)
      ensures lhs[o] == rhs[o]
    {
      var half := Pow2(s - 1);
      var i := if o < half then o else o - half;
      var k := TwiddleIndex(levels, s, i);
      ButterflyAdditive(lo1[i], hi1[i], lo2[i], hi2[i], tw.cos[k], tw.sin[k]);
    }
  }

  lemma CombineHomogeneous(c: real, lo: seq<Complex>, hi: seq<Complex>, tw: Tables, levels: nat, s: nat)
    requires 1 <= s <= levels && TablesFit(tw, levels)
    requires |lo| == |hi| == Pow2(s - 1)
    ensures Combine(ScaleAll(c, lo), ScaleAll(c, hi), tw, levels, s)
            == ScaleAll(c, Combine(lo, hi, tw, levels, s))
  {
    var lhs := Combine(ScaleAll(c, lo), ScaleAll(c, hi), tw, levels, s);
    var rhs := ScaleAll(c, Combine(lo, hi, tw, levels, s));
    forall o | 0 <= o < Pow2(s)
      ensures lhs[o] == rhs[o]
    {
      var half := Pow2(s - 1);
      var i := if o < half then o else o - half;
      var k := TwiddleIndex(levels, s, i);
      ButterflyHomogeneous(c, lo[i], hi[i], tw.cos[k], tw.sin[k]);
    }
  }

  /** Stages 1 .. s map the sum of two blocks to the sum of what they make of each. */
  predicate SumCommutes(u: seq<Complex>, v: seq<Complex>, tw: Tables, levels: nat, s: nat)
    requires TablesFit(tw, levels) && s <= levels && |u| == Pow2(s) && |v| == Pow2(s)
  {
    Block(AddAll(u, v), tw, levels, s) == AddAll(Block(u, tw, levels, s), Block(v, tw, levels, s))
  }

  /** Stages 1 .. s map a scaled block to the scaled result. */
  predicate ScaleCommutes(c: real, v: seq<Complex>, tw: Tables, levels: nat, s: nat)
    requires TablesFit(tw, levels) && s <= levels && |v| == Pow2(s)
  {
    Block(ScaleAll(c, v), tw, levels, s) == ScaleAll(c, Block(v, tw, levels, s))
  }

  /** The network is additive. */
  lemma {:induction false} BlockAdditive(u: seq<Complex>, v: seq<Complex>, tw: Tables, levels: nat, s: nat)
    requires TablesFit(tw, levels) && s <= levels && |u| == Pow2(s) && |v| == Pow2(s)
    ensures SumCommutes(u, v, tw, levels, s)
  {
    if s > 0 {
      var half := Pow2(s - 1);
      assert AddAll(u, v)[..half] == AddAll(u[..half], v[..half]);
      assert AddAll(u, v)[half..] == AddAll(u[half..], v[half..]);
      BlockAdditive(u[..half], v[..half], tw, levels, s - 1);
      BlockAdditive(u[half..], v[half..], tw, levels, s - 1);
      CombineAdditive(Block(u[..half], tw, levels, s - 1), Block(u[half..], tw, levels, s - 1),
                      Block(v[..half], tw, levels, s - 1), Block(v[half..], tw, levels, s - 1), tw, levels, s);
    }
  }

  /** The network commutes with scaling by a real constant. */
  lemma {:induction false} BlockHomogeneous(c: real, v: seq<Complex>, tw: Tables, levels: nat, s: nat)
    requires TablesFit(tw, levels) && s <= levels && |v| == Pow2(s)
    ensures ScaleCommutes(c, v, tw, levels, s)
  {
    if s > 0 {
      var half := Pow2(s - 1);
      assert ScaleAll(c, v)[..half] == ScaleAll(c, v[..half]);
      assert ScaleAll(c, v)[half..] == ScaleAll(c, v[half..]);
      BlockHomogeneous(c, v[..half], tw, levels, s - 1);
      BlockHomogeneous(c, v[half..], tw, levels, s - 1);
      CombineHomogeneous(c, Block(v[..half], tw, levels, s - 1), Block(v[half..], tw, levels, s - 1), tw, levels, s);
    }
  }

  // ---------------------------------------------------------------------
  // Entry 0 of a block: with cos 0 = 1 and sin 0 = 0 it is the block's sum

  function Total(v: seq<Complex>): Complex
  {
    if v == [] then Complex(0.0, 0.0) else Plus(v[0], Total(v[1..]))
  }

  lemma {:induction false} TotalConcat(u: seq<Complex>, v: seq<Complex>)
    ensures Total(u + v) == Plus(Total(u), Total(v))
  {
    if u == [] {
      assert u + v == v;
    } else {
      assert (u + v)[1..] == u[1..] + v;
      TotalConcat(u[1..], v);
    }
  }

  /** Entry 0 after stages 1 .. s is the sum of the block. */
  predicate SumsAtZero(v: seq<Complex>, tw: Tables, levels: nat, s: nat)
    requires TablesFit(tw, levels) && s <= levels && |v| == Pow2(s)
  {
    Block(v, tw, levels, s)[0] == Total(v)
  }

  lemma {:induction false} BlockTotal(v: seq<Complex>, tw: Tables, levels: nat, s: nat)
    requires TablesFit(tw, levels) && s <= levels && |v| == Pow2(s)
    requires levels >= 1 ==> tw.cos[0] == 1.0 && tw.sin[0] == 0.0
    ensures SumsAtZero(v, tw, levels, s)
  {
    if s == 0 {
      assert v[1..] == [];
    } else {
      var half := Pow2(s - 1);
      BlockTotal(v[..half], tw, levels, s - 1);
      BlockTotal(v[half..], tw, levels, s - 1);
      ShiftedZero(levels - s);
      var lo, hi := Block(v[..half], tw, levels, s - 1), Block(v[half..], tw, levels, s - 1);
      assert Block(v, tw, levels, s)[0] == Plus(lo[0], hi[0]);
      assert v == v[..half] + v[half..];
      TotalConcat(v[..half], v[half..]);
    }
  }

  function Zeros(m: nat): (z: seq<Complex>)
    ensures |z| == m
  {
    seq(m, i => Complex(0.0, 0.0))
  }

  function Ones(m: nat): (z: seq<Complex>)
    ensures |z| == m
  {
    seq(m, i => Complex(1.0, 0.0))
  }

  /** The unit impulse: 1 at entry 0, 0 elsewhere. */
  function Impulse(m: nat): (z: seq<Complex>)
    ensures |z| == m
  {
    seq(m, i => if i == 0 then Complex(1.0, 0.0) else Complex(0.0, 0.0))
  }

  /** A butterfly on a top half of ones and a bottom half of zeros gives ones. */
  lemma CombineOnesZeros(tw: Tables, levels: nat, s: nat)
    requires 1 <= s <= levels && TablesFit(tw, levels)
    ensures Combine(Ones(Pow2(s - 1)), Zeros(Pow2(s - 1)), tw, levels, s) == Ones(Pow2(s))
  {
    var half := Pow2(s - 1);
    var r := Combine(Ones(half), Zeros(half), tw, levels, s);
    forall o | 0 <= o < Pow2(s)
      ensures r[o] == Ones(Pow2(s))[o]
    {
      var i := if o < half then o else o - half;
      var k := TwiddleIndex(levels, s, i);
      assert Ones(half)[i] == Complex(1.0, 0.0) && Zeros(half)[i] == Complex(0.0, 0.0);
      assert Rotate(Complex(0.0, 0.0), tw.cos[k], tw.sin[k]) == Complex(0.0, 0.0);
    }
  }

  /** Stages 1 .. s leave a block of zeros as it is. */
  predicate ZerosStay(tw: Tables, levels: nat, s: nat)
    requires TablesFit(tw, levels) && s <= levels
  {
    Block(Zeros(Pow2(s)), tw, levels, s) == Zeros(Pow2(s))
  }

  /** Stages 1 .. s turn a unit impulse into all ones. */
  predicate ImpulseSpreads(tw: Tables, levels: nat, s: nat)
    requires TablesFit(tw, levels) && s <= levels
  {
    Block(Impulse(Pow2(s)), tw, levels, s) == Ones(Pow2(s))
  }

  /** Whatever the twiddle factors, the network maps zeros to zeros: zeros are zero times zeros. */
  lemma BlockZeros(tw: Tables, levels: nat, s: nat)
    requires TablesFit(tw, levels) && s <= levels
    ensures ZerosStay(tw, levels, s)
  {
    var z := Zeros(Pow2(s));
    assert ScaleAll(0.0, z) == z;
    BlockHomogeneous(0.0, z, tw, levels, s);
    assert ScaleAll(0.0, Block(z, tw, levels, s)) == z;
  }

  /** Whatever the twiddle factors, the network maps the unit impulse to all ones. */
  lemma {:induction false} BlockImpulse(tw: Tables, levels: nat, s: nat)
    requires TablesFit(tw, levels) && s <= levels
    ensures ImpulseSpreads(tw, levels, s)
  {
    if s == 0 {
      assert Impulse(1) == Ones(1);
    } else {
      var half := Pow2(s - 1);
      assert Impulse(Pow2(s))[..half] == Impulse(half);
      assert Impulse(Pow2(s))[half..] == Zeros(half);
      BlockImpulse(tw, levels, s - 1);
      BlockZeros(tw, levels, s - 1);
      CombineOnesZeros(tw, levels, s);
    }
  }

  /** With two entries the network is one butterfly with twiddle factor 1: sum and difference. */
  lemma TwoPoint(a: Complex, b: Complex, tw: Tables)
    requires TablesFit(tw, 1) && tw.cos[0] == 1.0 && tw.sin[0] == 0.0
    ensures Block([a, b], tw, 1, 1) == [Plus(a, b), Minus(a, b)]
  {
    assert [a, b][..1] == [a] && [a, b][1..] == [b];
    var r := Combine([a], [b], tw, 1, 1);
    assert Block([a, b], tw, 1, 1) == r;
    assert TwiddleIndex(1, 1, 0) == 0;
    assert Rotate(b, 1.0, 0.0) == b;
    assert r[0] == Plus(a, b);
    assert r[1] == Minus(a, b);
  }

  // ---------------------------------------------------------------------
  // The loops of transformRadix2

  /**
   * One butterfly applied in place to entries j (top) and j + h (bottom)
   * of y; every other entry is left as it was.
   */
  function ApplyButterfly(y: Signal, j: nat, h: nat, c: real, s: real): (r: Signal)
    requires j + h < |y.re| && j + h < |y.im|
    ensures |r.re| == |y.re| && |r.im| == |y.im|
    ensures forall p :: 0 <= p < |y.re| && p != j && p != j + h ==> r.re[p] == y.re[p]
    ensures forall p :: 0 <= p < |y.im| && p != j && p != j + h ==> r.im[p] == y.im[p]
  {
    var out := Butterfly(At(y, j), At(y, j + h), c, s);
    Signal(y.re[j := out.0.re][j + h := out.1.re], y.im[j := out.0.im][j + h := out.1.im])
  }

  /**
   * One inner step: t is computed from the old bottom entry j + halfsize,
   * then the bottom becomes top - t and the top becomes top + t.
   */
  method ButterflyStep(re: array<real>, im: array<real>, j: nat, halfsize: nat, c: real, s: real)
    requires re != im && halfsize >= 1
    requires j + halfsize < re.Length && j + halfsize < im.Length
    modifies re, im
    ensures Signal(re[..], im[..]) == ApplyButterfly(old(Signal(re[..], im[..])), j, halfsize, c, s)
  {
    ghost var after := ApplyButterfly(Signal(re[..], im[..]), j, halfsize, c, s);
    var tpre := re[j + halfsize] * c + im[j + halfsize] * s;
    var tpim := -re[j + halfsize] * s + im[j + halfsize] * c;
    re[j + halfsize] := re[j] - tpre;
    im[j + halfsize] := im[j] - tpim;
    re[j] := re[j] + tpre;
    im[j] := im[j] + tpim;
    assert re[j] == after.re[j] && re[j + halfsize] == after.re[j + halfsize];
    assert im[j] == after.im[j] && im[j + halfsize] == after.im[j + halfsize];
    assert re[..] == after.re && im[..] == after.im;
  }

  /**
   * The state of the inner loop after m steps over the block of 2^s
   * entries at i: entries i + o and i + half + o with o < m hold their
   * `CombineAt` values, every other entry of the signal is as in y0.
   */
  ghost predicate Progress(cur: Signal, y0: Signal, lo: seq<Complex>, hi: seq<Complex>,
                           tw: Tables, levels: nat, s: nat, i: nat, m: nat)
    requires Shaped(cur, levels) && Shaped(y0, levels) && TablesFit(tw, levels)
    requires 1 <= s <= levels && i + Pow2(s) <= Pow2(levels)
    requires |lo| == Pow2(s - 1) && |hi| == Pow2(s - 1) && m <= Pow2(s - 1)
  {
    forall p :: 0 <= p < Pow2(levels) ==>
      At(cur, p) == (if i <= p < i + m || i + Pow2(s - 1) <= p < i + Pow2(s - 1) + m
                     then CombineAt(lo, hi, tw, levels, s, p - i) else At(y0, p))
  }

  /** The butterfly at j, with the table entry `TwiddleIndex` picks, extends the progress by one offset. */
  lemma ProgressStep(cur: Signal, y0: Signal, lo: seq<Complex>, hi: seq<Complex>,
                     tw: Tables, levels: nat, s: nat, i: nat, j: nat, half: nat, c: real, sn: real)
    requires Shaped(cur, levels) && Shaped(y0, levels) && TablesFit(tw, levels)
    requires 1 <= s <= levels && i + Pow2(s) <= Pow2(levels)
    requires half == Pow2(s - 1) && i <= j < i + half
    requires c == tw.cos[TwiddleIndex(levels, s, j - i)] && sn == tw.sin[TwiddleIndex(levels, s, j - i)]
    requires lo == Window(y0, i, half) && hi == Window(y0, i + half, half)
    requires Progress(cur, y0, lo, hi, tw, levels, s, i, j - i)
    ensures Progress(ApplyButterfly(cur, j, half, c, sn), y0, lo, hi, tw, levels, s, i, j + 1 - i)
  {
    var m := j - i;
    var next := ApplyButterfly(cur, j, half, c, sn);
    assert At(cur, j) == lo[m];
    assert At(cur, j + half) == hi[m];
    forall p | 0 <= p < Pow2(levels)
      ensures At(next, p) == (if i <= p < i + m + 1 || i + half <= p < i + half + m + 1
                              then CombineAt(lo, hi, tw, levels, s, p - i) else At(y0, p))
    {
      if p != j && p != j + half {
        assert At(next, p) == At(cur, p);
      }
    }
  }

  /** After half the block's steps the block holds `Combine` of its halves and the rest is as in y0. */
  lemma ProgressDone(cur: Signal, y0: Signal, lo: seq<Complex>, hi: seq<Complex>,
                     tw: Tables, levels: nat, s: nat, i: nat)
    requires Shaped(cur, levels) && Shaped(y0, levels) && TablesFit(tw, levels)
    requires 1 <= s <= levels && i + Pow2(s) <= Pow2(levels)
    requires |lo| == Pow2(s - 1) && |hi| == Pow2(s - 1)
    requires Progress(cur, y0, lo, hi, tw, levels, s, i, Pow2(s - 1))
    ensures Window(cur, i, Pow2(s)) == Combine(lo, hi, tw, levels, s)
    ensures forall p :: 0 <= p < Pow2(levels) && (p < i || i + Pow2(s) <= p) ==>
              cur.re[p] == y0.re[p] && cur.im[p] == y0.im[p]
  {
    forall o | 0 <= o < Pow2(s)
      ensures Window(cur, i, Pow2(s))[o] == CombineAt(lo, hi, tw, levels, s, o)
    {
      assert Window(cur, i, Pow2(s))[o] == At(cur, i + o);
    }
    forall p | 0 <= p < Pow2(levels) && (p < i || i + Pow2(s) <= p)
      ensures cur.re[p] == y0.re[p] && cur.im[p] == y0.im[p]
    {
      assert At(cur, p) == At(y0, p);
    }
  }

  /**
   * The innermost loop over the block of 2^s entries starting at i: j runs
   * over the upper half while k advances by tablestep.  The block becomes
   * `Combine` of its two old halves; nothing outside it changes.
   */
  method ButterflyBlock(re: array<real>, im: array<real>, cosTable: array<real>, sinTable: array<real>,
                        i: nat, halfsize: nat, tablestep: nat, ghost tw: Tables, ghost levels: nat, ghost s: nat)
    requires re != im && {re, im} !! {cosTable, sinTable}
    requires re.Length == Pow2(levels) && im.Length == Pow2(levels)
    requires tw == Tables(cosTable[..], sinTable[..]) && TablesFit(tw, levels)
    requires 1 <= s <= levels && halfsize == Pow2(s - 1) && tablestep == Pow2(levels - s)
    requires i + Pow2(s) <= Pow2(levels)
    modifies re, im
    ensures Window(Signal(re[..], im[..]), i, Pow2(s))
            == Combine(old(Window(Signal(re[..], im[..]), i, halfsize)),
                       old(Window(Signal(re[..], im[..]), i + halfsize, halfsize)), tw, levels, s)
    ensures forall p :: 0 <= p < Pow2(levels) && (p < i || i + Pow2(s) <= p) ==>
              re[p] == old(re[p]) && im[p] == old(im[p])
  {
    ghost var y0 := Signal(re[..], im[..]);
    ghost var lo, hi := Window(y0, i, halfsize), Window(y0, i + halfsize, halfsize);
    var j := i;
    var k := 0;
    ShiftedZero(levels - s);
    while j < i + halfsize
      invariant i <= j <= i + halfsize
      invariant k == Shifted(j - i, levels - s)
      invariant Progress(Signal(re[..], im[..]), y0, lo, hi, tw, levels, s, i, j - i)
    {
      assert k == TwiddleIndex(levels, s, j - i);
      var c, sn := cosTable[k], sinTable[k];
      ProgressStep(Signal(re[..], im[..]), y0, lo, hi, tw, levels, s, i, j, halfsize, c, sn);
      ButterflyStep(re, im, j, halfsize, c, sn);
      ShiftedSucc(j - i, levels - s);
      j := j + 1;
      k := k + tablestep;
    }
    ProgressDone(Signal(re[..], im[..]), y0, lo, hi, tw, levels, s, i);
  }

  /** The 2^s entries of y starting at b hold what stages 1 .. s make of the same entries of x. */
  ghost predicate BlockDone(y: Signal, x: Signal, tw: Tables, levels: nat, s: nat, b: nat)
    requires Shaped(y, levels) && Shaped(x, levels) && TablesFit(tw, levels)
    requires s <= levels && b + Pow2(s) <= Pow2(levels)
  {
    Window(y, b, Pow2(s)) == Block(Window(x, b, Pow2(s)), tw, levels, s)
  }

  /** Every block of 2^d entries of y holds what stages 1 .. d make of that block of x. */
  ghost predicate StagesDone(y: Signal, x: Signal, tw: Tables, levels: nat, d: nat)
    requires Shaped(y, levels) && Shaped(x, levels) && TablesFit(tw, levels) && d <= levels
  {
    forall q :: Shifted(q, d) + Pow2(d) <= Pow2(levels) ==> BlockDone(y, x, tw, levels, d, Shifted(q, d))
  }

  /** Before any stage, every block of one entry holds the input. */
  lemma NoStagesDone(x: Signal, tw: Tables, levels: nat)
    requires Shaped(x, levels) && TablesFit(tw, levels)
    ensures StagesDone(x, x, tw, levels, 0)
  {
  }

  /**
   * The state of a stage's loop at block start i: every block of 2^s
   * entries below i holds stages 1 .. s of x, and from i on the signal is
   * as it was when the stage began.
   */
  ghost predicate StageProgress(cur: Signal, y0: Signal, x: Signal, tw: Tables, levels: nat, s: nat, i: nat)
    requires Shaped(cur, levels) && Shaped(y0, levels) && Shaped(x, levels) && TablesFit(tw, levels)
    requires 1 <= s <= levels && i <= Pow2(levels)
  {
    && (forall q :: Shifted(q, s) + Pow2(s) <= i ==> BlockDone(cur, x, tw, levels, s, Shifted(q, s)))
    && (forall p :: i <= p < Pow2(levels) ==> cur.re[p] == y0.re[p] && cur.im[p] == y0.im[p])
  }

  /** Two signals that agree on the entries of a window have equal windows there. */
  lemma SameWindow(a: Signal, b: Signal, lo: nat, len: nat)
    requires lo + len <= |a.re| && lo + len <= |a.im| && lo + len <= |b.re| && lo + len <= |b.im|
    requires forall p :: lo <= p < lo + len ==> a.re[p] == b.re[p] && a.im[p] == b.im[p]
    ensures Window(a, lo, len) == Window(b, lo, len)
  {
    forall o | 0 <= o < len
      ensures Window(a, lo, len)[o] == Window(b, lo, len)[o]
    {
      assert Window(a, lo, len)[o] == At(a, lo + o);
      assert Window(b, lo, len)[o] == At(b, lo + o);
      assert a.re[lo + o] == b.re[lo + o] && a.im[lo + o] == b.im[lo + o];
    }
  }

  /** When the blocks of 2^(s-1) entries are done, so are the two halves of the block q << s. */
  lemma HalvesDone(y: Signal, x: Signal, tw: Tables, levels: nat, s: nat, q: nat)
    requires Shaped(y, levels) && Shaped(x, levels) && TablesFit(tw, levels) && 1 <= s <= levels
    requires Shifted(q, s) + Pow2(s) <= Pow2(levels)
    requires StagesDone(y, x, tw, levels, s - 1)
    ensures BlockDone(y, x, tw, levels, s - 1, Shifted(q, s))
    ensures BlockDone(y, x, tw, levels, s - 1, Shifted(q, s) + Pow2(s - 1))
  {
    assert Pow2(s) == 2 * Pow2(s - 1);
    BlockHalves(q, s);
    assert BlockDone(y, x, tw, levels, s - 1, Shifted(2 * q, s - 1));
    assert BlockDone(y, x, tw, levels, s - 1, Shifted(2 * q + 1, s - 1));
  }

  /** Stage s applied to a block whose halves hold stages 1 .. s-1 of x gives stages 1 .. s of x. */
  lemma CombineDone(before: Signal, after: Signal, x: Signal, tw: Tables, levels: nat, s: nat, i: nat)
    requires Shaped(before, levels) && Shaped(after, levels) && Shaped(x, levels)
    requires TablesFit(tw, levels) && 1 <= s <= levels && i + Pow2(s) <= Pow2(levels)
    requires BlockDone(before, x, tw, levels, s - 1, i)
    requires BlockDone(before, x, tw, levels, s - 1, i + Pow2(s - 1))
    requires Window(after, i, Pow2(s))
             == Combine(Window(before, i, Pow2(s - 1)), Window(before, i + Pow2(s - 1), Pow2(s - 1)), tw, levels, s)
    ensures BlockDone(after, x, tw, levels, s, i)
  {
    WindowSplit(x, i, Pow2(s - 1), Pow2(s));
  }

  /**
   * Combining the block at i = q << s from its two halves, which hold
   * stages 1 .. s-1 of x, finishes that block and leaves the blocks before
   * it alone.
   */
  lemma StageStep(before: Signal, after: Signal, y0: Signal, x: Signal, tw: Tables, levels: nat, s: nat, q: nat, i: nat)
    requires Shaped(before, levels) && Shaped(after, levels) && Shaped(y0, levels) && Shaped(x, levels)
    requires TablesFit(tw, levels) && 1 <= s <= levels
    requires i == Shifted(q, s) && i + Pow2(s) <= Pow2(levels)
    requires StagesDone(y0, x, tw, levels, s - 1)
    requires StageProgress(before, y0, x, tw, levels, s, i)
    requires Window(after, i, Pow2(s))
             == Combine(Window(before, i, Pow2(s - 1)), Window(before, i + Pow2(s - 1), Pow2(s - 1)), tw, levels, s)
    requires forall p :: 0 <= p < Pow2(levels) && (p < i || i + Pow2(s) <= p) ==>
               after.re[p] == before.re[p] && after.im[p] == before.im[p]
    ensures StageProgress(after, y0, x, tw, levels, s, i + Pow2(s))
  {
    var half := Pow2(s - 1);
    var size := Pow2(s);
    HalvesDone(y0, x, tw, levels, s, q);
    SameWindow(before, y0, i, half);
    SameWindow(before, y0, i + half, half);
    CombineDone(before, after, x, tw, levels, s, i);
    forall q': nat | Shifted(q', s) + size <= i + size
      ensures BlockDone(after, x, tw, levels, s, Shifted(q', s))
    {
      if q' < q {
        ShiftedMonotone(q', q, s);
        SameWindow(after, before, Shifted(q', s), size);
      } else if q' > q {
        ShiftedMonotone(q, q', s);
      }
    }
  }

  /**
   * One stage: the loop over the block starts i = 0, size, 2*size, ...
   * below n.  Every block of 2^(s-1) entries holds stages 1 .. s-1 of x
   * before, every block of 2^s entries holds stages 1 .. s of x after.
   */
  method ButterflyStage(re: array<real>, im: array<real>, cosTable: array<real>, sinTable: array<real>,
                        size: nat, ghost x: Signal, ghost tw: Tables, ghost levels: nat, ghost s: nat)
    requires re != im && {re, im} !! {cosTable, sinTable}
    requires re.Length == Pow2(levels) && im.Length == Pow2(levels) && Shaped(x, levels)
    requires tw == Tables(cosTable[..], sinTable[..]) && TablesFit(tw, levels)
    requires 1 <= s <= levels && size == Pow2(s)
    requires StagesDone(Signal(re[..], im[..]), x, tw, levels, s - 1)
    modifies re, im
    ensures StagesDone(Signal(re[..], im[..]), x, tw, levels, s)
  {
    ghost var y0 := Signal(re[..], im[..]);
    var n := re.Length;
    StageParameters(levels, s);
    var halfsize := size / 2;
    var tablestep := n / size;
    ghost var q := 0;
    var i := 0;
    ShiftedZero(s);
    while i < n
      invariant i == Shifted(q, s) && i <= n
      invariant StageProgress(Signal(re[..], im[..]), y0, x, tw, levels, s, i)
    {
      BlockFits(q, s, levels);
      ghost var before := Signal(re[..], im[..]);
      ButterflyBlock(re, im, cosTable, sinTable, i, halfsize, tablestep, tw, levels, s);
      StageStep(before, Signal(re[..], im[..]), y0, x, tw, levels, s, q, i);
      ShiftedSucc(q, s);
      i := i + size;
      q := q + 1;
    }
  }

  /**
   * The bookkeeping of the outer loop once `done` stages have run: the
   * sizes they ran with, and the doubled sizes, each at most n.  Once a
   * stage has run, the next size is at most n too.
   */
  ghost predicate Schedule(sizes: seq<nat>, doubled: seq<nat>, done: nat, size: nat, n: nat)
  {
    && |sizes| == done && |doubled| == done
    && (forall t :: 0 <= t < done ==> sizes[t] == Pow2(t + 1))
    && (forall t :: 0 <= t < done ==> doubled[t] == 2 * sizes[t] <= n)
    && (done >= 1 ==> size <= n)
  }

  /**
   * What the outer loop leaves: one stage per level with size 2^(t+1),
   * and one doubling fewer than stages, each at most n.
   */
  ghost predicate StageSizes(sizes: seq<nat>, doubled: seq<nat>, levels: nat, n: nat)
  {
    && |sizes| == levels
    && (forall t :: 0 <= t < levels ==> sizes[t] == Pow2(t + 1))
    && |doubled| == (if levels == 0 then 0 else levels - 1)
    && (forall t :: 0 <= t < |doubled| ==> doubled[t] == 2 * sizes[t] <= n)
  }

  /** A stage below n: its size is recorded and doubled. */
  lemma ScheduleStep(sizes: seq<nat>, doubled: seq<nat>, done: nat, size: nat, n: nat)
    requires Schedule(sizes, doubled, done, size, n)
    requires size == Pow2(done + 1) && 2 * size <= n
    ensures Schedule(sizes + [size], doubled + [2 * size], done + 1, 2 * size, n)
  {
  }

  /** The stage of size n is the last one, and it is not doubled. */
  lemma ScheduleLast(sizes: seq<nat>, doubled: seq<nat>, done: nat, size: nat, n: nat, levels: nat)
    requires Schedule(sizes, doubled, done, size, n)
    requires size == Pow2(done + 1) && size == n && n == Pow2(levels)
    ensures done + 1 == levels && StageSizes(sizes + [size], doubled, levels, n)
  {
    if done + 1 < levels {
      Pow2Monotone(done + 2, levels);
    } else if done + 1 > levels {
      Pow2Monotone(levels + 1, done + 1);
    }
  }

  /** The guard fails before any stage only when n = 1. */
  lemma ScheduleNone(sizes: seq<nat>, doubled: seq<nat>, done: nat, size: nat, n: nat, levels: nat)
    requires Schedule(sizes, doubled, done, size, n)
    requires size == Pow2(done + 1) && size > n && n == Pow2(levels)
    ensures done == 0 && levels == 0 && StageSizes(sizes, doubled, levels, n)
  {
  }

  /**
   * The outer loop: size = 2, 4, ..., n, leaving by the break once the
   * stage of size n is done, so size is never doubled past n.  `sizes`
   * lists the stage sizes in the order they ran, `doubled` every value
   * `size * 2` produced.
   */
  method ButterflyNetwork(re: array<real>, im: array<real>, cosTable: array<real>, sinTable: array<real>,
                          ghost tw: Tables, ghost levels: nat)
    returns (ghost sizes: seq<nat>, ghost doubled: seq<nat>)
    requires re != im && {re, im} !! {cosTable, sinTable}
    requires re.Length == Pow2(levels) && im.Length == Pow2(levels)
    requires tw == Tables(cosTable[..], sinTable[..]) && TablesFit(tw, levels)
    modifies re, im
    ensures Window(Signal(re[..], im[..]), 0, re.Length)
            == Block(old(Window(Signal(re[..], im[..]), 0, re.Length)), tw, levels, levels)
    ensures StageSizes(sizes, doubled, levels, re.Length)
  {
    ghost var x0 := Signal(re[..], im[..]);
    var n := re.Length;
    sizes, doubled := [], [];
    ghost var done: nat := 0;
    NoStagesDone(x0, tw, levels);
    var size := 2;
    while size <= n
      invariant done <= levels && size == Pow2(done + 1)
      invariant done < levels ==> size <= n
      invariant StagesDone(Signal(re[..], im[..]), x0, tw, levels, done)
      invariant Schedule(sizes, doubled, done, size, n)
    {
      ButterflyStage(re, im, cosTable, sinTable, size, x0, tw, levels, done + 1);
      if size == n {
        ScheduleLast(sizes, doubled, done, size, n, levels);
        sizes, done := sizes + [size], done + 1;
        break;
      }
      if done + 2 < levels {
        Pow2Monotone(done + 2, levels);
      }
      // the doubled size is at most n, so it cannot overflow
      assert size * 2 <= n;
      ScheduleStep(sizes, doubled, done, size, n);
      sizes, doubled, done := sizes + [size], doubled + [size * 2], done + 1;
      size := size * 2;
    }
    if size > n {
      ScheduleNone(sizes, doubled, done, size, n, levels);
    }
    ShiftedZero(levels);
    assert BlockDone(Signal(re[..], im[..]), x0, tw, levels, levels, Shifted(0, levels));
  }

  /** Builds cosTable and sinTable of length n/2 from the caller's cosine and sine. */
  method BuildTables(n: nat, cosine: (nat, nat) -> real, sine: (nat, nat) -> real)
    returns (cosTable: array<real>, sinTable: array<real>)
    ensures fresh(cosTable) && fresh(sinTable)
    ensures Tables(cosTable[..], sinTable[..]) == Twiddles(n, cosine, sine)
  {
    cosTable := new real[n / 2];
    sinTable := new real[n / 2];
    var i := 0;
    while i < n / 2
      invariant 0 <= i <= n / 2
      invariant forall k :: 0 <= k < i ==> cosTable[k] == cosine(k, n) && sinTable[k] == sine(k, n)
    {
      cosTable[i] := cosine(i, n);
      sinTable[i] := sine(i, n);
      i := i + 1;
    }
    assert cosTable[..] == Twiddles(n, cosine, sine).cos;
    assert sinTable[..] == Twiddles(n, cosine, sine).sin;
  }
}
