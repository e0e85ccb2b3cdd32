/**
 * The bit-reversed addressing permutation of `transformRadix2`: for each
 * index i, j = reverseBits(i, levels), and when j > i the entries at i and
 * j of both vectors are exchanged.  Modelled over arrays of any element
 * type, since the pass only moves values.
 */
module Permutation {
  import opened BitReversal

  /** The sequence in bit-reversed order: entry i is s[Rev(i, levels)]. */
  function BitReversed<T>(s: seq<T>, levels: nat): (r: seq<T>)
    requires |s| == Pow2(levels)
    ensures |r| == |s|
  {
    seq(|s|, i requires 0 <= i < |s| => s[Rev(i, levels)])
  }

  /** Reordering twice restores the original sequence. */
  lemma BitReversedInvolution<T>(s: seq<T>, levels: nat)
    requires |s| == Pow2(levels)
    ensures BitReversed(BitReversed(s, levels), levels) == s
  {
    var r := BitReversed(BitReversed(s, levels), levels);
    forall i | 0 <= i < |s|
      ensures r[i] == s[i]
    {
      RevInvolution(i, levels);
    }
  }

  /** Entries whose index is its own reversal stay where they are. */
  lemma BitReversedFixedPoints<T>(s: seq<T>, levels: nat, i: nat)
    requires |s| == Pow2(levels) && i < |s|
    requires Rev(i, levels) == i
    ensures BitReversed(s, levels)[i] == s[i]
  {
  }

  function Min(a: nat, b: nat): nat
  {
    if a <= b then a else b
  }

  /** s with the entries at i and j exchanged. */
  function Swap<T>(s: seq<T>, i: nat, j: nat): (r: seq<T>)
    requires i < |s| && j < |s|
    ensures |r| == |s| && multiset(r) == multiset(s)
  {
    s[i := s[j]][j := s[i]]
  }

  /**
   * The state of the pass before index i: every pair {p, Rev(p)} whose
   * smaller index is below i has been put in bit-reversed place, every
   * other entry still holds its original value.
   */
  ghost predicate PlacedBefore<T>(a: seq<T>, orig: seq<T>, levels: nat, i: nat)
    requires |a| == |orig| == Pow2(levels)
  {
    forall p :: 0 <= p < |a| ==>
      a[p] == (if Min(p, Rev(p, levels)) < i then orig[Rev(p, levels)] else orig[p])
  }

  /** The indices the pass has exchanged before reaching index i. */
  ghost function ExchangedBefore(n: nat, levels: nat, i: nat): set<nat>
  {
    set p: nat | p < n && Rev(p, levels) != p && Min(p, Rev(p, levels)) < i
  }

  /** Handling index i (a swap exactly when j = Rev(i) > i) extends the placed prefix. */
  lemma PlacedStep<T>(a: seq<T>, orig: seq<T>, levels: nat, i: nat)
    requires |a| == |orig| == Pow2(levels) && i < |a|
    requires PlacedBefore(a, orig, levels, i)
    ensures var j := Rev(i, levels);
            PlacedBefore(if j > i then Swap(a, i, j) else a, orig, levels, i + 1)
  {
    var j := Rev(i, levels);
    var b := if j > i then Swap(a, i, j) else a;
    RevInvolution(i, levels);
    forall p | 0 <= p < |a|
      ensures b[p] == (if Min(p, Rev(p, levels)) < i + 1 then orig[Rev(p, levels)] else orig[p])
    {
      RevInvolution(p, levels);
      if p != i && p != j {
        assert Rev(p, levels) != i;
      }
    }
  }

  /** The same step for the set of exchanged indices: i and j join it, and neither was in it. */
  lemma ExchangedStep(n: nat, levels: nat, i: nat)
    requires n == Pow2(levels) && i < n
    ensures var j := Rev(i, levels);
            && (j > i ==> i !in ExchangedBefore(n, levels, i) && j !in ExchangedBefore(n, levels, i))
            && (j > i ==> ExchangedBefore(n, levels, i + 1) == ExchangedBefore(n, levels, i) + {i, j})
            && (j <= i ==> ExchangedBefore(n, levels, i + 1) == ExchangedBefore(n, levels, i))
  {
    var j := Rev(i, levels);
    RevInvolution(i, levels);
    var after := ExchangedBefore(n, levels, i + 1);
    var grown := ExchangedBefore(n, levels, i) + (if j > i then {i, j} else {});
    forall p: nat | p in after || p in grown
      ensures p in after <==> p in grown
    {
      RevInvolution(p, levels);
    }
  }

  /**
   * The swaps made before index i, listed by their smaller index: the list
   * increases, each entry lies below its reversal, and every index below i
   * that lies below its reversal is in it.
   */
  ghost predicate SwapLog(pairs: seq<nat>, n: nat, levels: nat, i: nat)
  {
    && (forall t :: 0 <= t < |pairs| ==> pairs[t] < i && pairs[t] < Rev(pairs[t], levels) < n)
    && (forall t, u :: 0 <= t < u < |pairs| ==> pairs[t] < pairs[u])
    && (forall p: nat :: p < i && p < Rev(p, levels) ==> p in pairs)
  }

  /** Handling index i logs it exactly when the pass swaps it with j = Rev(i) > i. */
  lemma SwapLogStep(pairs: seq<nat>, n: nat, levels: nat, i: nat)
    requires n == Pow2(levels) && i < n
    requires SwapLog(pairs, n, levels, i)
    ensures var j := Rev(i, levels);
            SwapLog(if j > i then pairs + [i] else pairs, n, levels, i + 1)
  {
    var j := Rev(i, levels);
    var next := if j > i then pairs + [i] else pairs;
    forall p: nat | p < i + 1 && p < Rev(p, levels)
      ensures p in next
    {
      if p < i {
        assert p in pairs;
      }
    }
  }

  /**
   * No index is moved by two swaps: the pairs {p, Rev(p)} of two different
   * entries of a complete log have no index in common.
   */
  lemma SwapsDisjoint(pairs: seq<nat>, n: nat, levels: nat, t: nat, u: nat)
    requires n == Pow2(levels) && SwapLog(pairs, n, levels, n)
    requires t < |pairs| && u < |pairs| && t != u
    ensures {pairs[t], Rev(pairs[t], levels)} !! {pairs[u], Rev(pairs[u], levels)}
  {
    var a, b := pairs[t], pairs[u];
    RevInvolution(a, levels);
    RevInvolution(b, levels);
    assert a != b by {
      if t < u {
        assert pairs[t] < pairs[u];
      } else {
        assert pairs[u] < pairs[t];
      }
    }
  }

  /** Once every index has been handled, the sequence is in bit-reversed order. */
  lemma PlacedComplete<T>(a: seq<T>, orig: seq<T>, levels: nat)
    requires |a| == |orig| == Pow2(levels)
    requires PlacedBefore(a, orig, levels, |a|)
    ensures a == BitReversed(orig, levels)
  {
    forall p | 0 <= p < |a|
      ensures a[p] == BitReversed(orig, levels)[p]
    {
      RevInvolution(p, levels);
    }
  }

  /** Exchanges two entries of one vector through a temporary. */
  method Exchange<T>(a: array<T>, i: nat, j: nat)
    requires i < a.Length && j < a.Length
    modifies a
    ensures a[..] == Swap(old(a[..]), i, j)
  {
    var temp := a[i];
    a[i] := a[j];
    a[j] := temp;
  }

  /**
   * The state of the swap loop before index i: both vectors placed up to
   * i with their multisets kept, `exchanged` the indices moved so far and
   * `pairs` the log of the swaps made.
   */
  ghost predicate PassState<T>(re: seq<T>, im: seq<T>, re0: seq<T>, im0: seq<T>,
                               exchanged: set<nat>, pairs: seq<nat>, levels: nat, i: nat)
    requires |re| == |im| == |re0| == |im0| == Pow2(levels)
  {
    && i <= |re|
    && PlacedBefore(re, re0, levels, i) && PlacedBefore(im, im0, levels, i)
    && multiset(re) == multiset(re0) && multiset(im) == multiset(im0)
    && exchanged == ExchangedBefore(|re|, levels, i)
    && SwapLog(pairs, |re|, levels, i)
  }

  /**
   * One turn of the swap loop: j = reverseBits(i, levels), and when j > i
   * the entries at i and j of both vectors are exchanged.  The two indices
   * were not moved before, so no pair is exchanged twice.
   */
  method PassStep<T>(re: array<T>, im: array<T>, levels: nat, i: nat, ghost re0: seq<T>, ghost im0: seq<T>,
                     ghost exchanged: set<nat>, ghost pairs: seq<nat>)
    returns (ghost exchanged': set<nat>, ghost pairs': seq<nat>)
    requires re != im && re.Length == im.Length == |re0| == |im0| == Pow2(levels)
    requires levels <= SIZE_T_BITS && i < re.Length
    requires PassState(re[..], im[..], re0, im0, exchanged, pairs, levels, i)
    modifies re, im
    ensures PassState(re[..], im[..], re0, im0, exchanged', pairs', levels, i + 1)
  {
    var n := re.Length;
    var j := ReverseBits(i, levels);
    assert j == Rev(i, levels);
    PlacedStep(re[..], re0, levels, i);
    PlacedStep(im[..], im0, levels, i);
    ExchangedStep(n, levels, i);
    SwapLogStep(pairs, n, levels, i);
    exchanged', pairs' := exchanged, pairs;
    if j > i {
      assert i !in exchanged && j !in exchanged;
      Exchange(re, i, j);
      Exchange(im, i, j);
      exchanged', pairs' := exchanged + {i, j}, pairs + [i];
    }
  }

  /**
   * The swap loop over both vectors.  `exchanged` collects the indices
   * moved; at the end it holds exactly the indices that are not their own
   * reversal.  `pairs` logs each swap by its smaller index, in increasing
   * order, so by `SwapsDisjoint` no index is moved by two swaps.
   */
  method BitReversePermutation<T>(re: array<T>, im: array<T>, levels: nat)
    returns (ghost exchanged: set<nat>, ghost pairs: seq<nat>)
    requires re != im
    requires re.Length == im.Length == Pow2(levels)
    requires levels <= SIZE_T_BITS
    modifies re, im
    ensures re[..] == BitReversed(old(re[..]), levels)
    ensures im[..] == BitReversed(old(im[..]), levels)
    ensures multiset(re[..]) == multiset(old(re[..]))
    ensures multiset(im[..]) == multiset(old(im[..]))
    ensures exchanged == set p: nat | p < re.Length && Rev(p, levels) != p
    ensures SwapLog(pairs, re.Length, levels, re.Length)
  {
    var n := re.Length;
    exchanged, pairs := {}, [];
    var i := 0;
    while i < n
      invariant 0 <= i <= n
      invariant PassState(re[..], im[..], old(re[..]), old(im[..]), exchanged, pairs, levels, i)
    {
      exchanged, pairs := PassStep(re, im, levels, i, old(re[..]), old(im[..]), exchanged, pairs);
      i := i + 1;
    }
    PlacedComplete(re[..], old(re[..]), levels);
    PlacedComplete(im[..], old(im[..]), levels);
  }
}
