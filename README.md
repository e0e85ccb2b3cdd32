# Radix-2 FFT (`transformRadix2`), modelled in Dafny

This project models the in-place radix-2 Cooley-Tukey FFT in
`development/C++FFT/fft.cpp`: the `reverseBits` helper and `transformRadix2`.
`transformRadix2` works on two vectors, `real` and `imag`, and does four things in order:

- it checks the lengths: the two lengths must be equal, and `n` must be a power of two,
  found by computing `levels = floor(log2 n)` with a halving loop;
- it fills the twiddle tables `cosTable` and `sinTable` of length `n/2`;
- it applies the bit-reversed addressing permutation with a swap loop;
- it runs the butterfly network, a stage for each `size = 2, 4, ..., n`, leaving the loop
  with a `break` once `size == n`.

The model keeps the source's form:

- Every loop of the source is a Dafny `method` with a `while` loop. The loops that write the vectors and
  the tables work on `array<real>` (or `array<T>`); `ReverseBits` and `ComputeLevels` loop over naturals.
- Each method is proved against a specification function.
- The arithmetic is exact `real`.
- The trigonometric values are caller-supplied functions `cosine(k, n)` and `sine(k, n)`.
- A thrown string is a `Failure` value.

Modules:

- `BitReversal` (bitrev.dfy) holds `Rev(x, n)`, the low `n` bits of `x` reversed.
  - Its properties are proved through an independent bit-list view, `Bits`.
  - `ReverseBits` is the shifting loop. Because shifts are `size_t` shifts, its result is
    taken modulo 2^64.
- `Validation` (validation.dfy) holds the halving loop and the two length checks.
- `Permutation` (permutation.dfy) holds `BitReversed(s, levels)`, the sequence with entry `i`
  taken from `Rev(i, levels)`, and the swap pass over both vectors.
- `Butterfly` (butterfly.dfy) holds:
  - the butterfly of one pair of entries;
  - `Combine`, what one stage makes of the two halves of a block;
  - `Block`, what stages 1 .. s make of a block of 2^s entries, where stage s combines the
    results of stages 1 .. s-1 on the two halves;
  - the three nested loops, proved to compute `Block` over the whole vector with every index
    in range;
  - linearity, the sum at entry 0, the impulse response and the two-point case.
- `Fft` (transform.dfy) holds `Transform(v) = Block(BitReversed(v))` and `TransformRadix2`,
  the whole function. It also lifts the properties of the network to the whole transform.

## Model

| member | source | states |
|---|---|---|
| `BitReversal.Rev` | development/C++FFT/fft.cpp:32-33 | the reversal of the low n bits of x is below 2^n |
| `BitReversal.BitsOfRev` | development/C++FFT/fft.cpp:32-33 | the low n bits of Rev(x, n), as a list, are the low n bits of x in the opposite order |
| `BitReversal.RevInvolution` | development/C++FFT/fft.cpp:32-34 | for x < 2^n, reversing twice gives x back |
| `BitReversal.RevInjective` | development/C++FFT/fft.cpp:32-33 | two indices below 2^n with the same reversal are equal |
| `BitReversal.RevSurjective` | development/C++FFT/fft.cpp:32-33 | every index below 2^n is the reversal of an index below 2^n, so reversal is a bijection there |
| `BitReversal.RevZero` | development/C++FFT/fft.cpp:32-33 | index 0 is the only index below 2^n whose reversal is 0 |
| `BitReversal.ShiftIn` | development/C++FFT/fft.cpp:32-33 | one turn of the loop, which shifts the low bit of x into the result in 64-bit arithmetic and then halves x, keeps the loop state: for n <= 64 the result stays below 2^(i+1) and, together with the bits left in x, makes up Rev(x, n) |
| `BitReversal.ReverseBits` | development/C++FFT/fft.cpp:13-35 | the result is below 2^64, and for n up to 64 it is exactly Rev(x, n) |
| `Validation.Log2FloorBounds` | development/C++FFT/fft.cpp:50-59 | for n >= 1, 2^L <= n < 2^(L+1) where L = floor(log2 n) |
| `Validation.Log2FloorIsLargest` | development/C++FFT/fft.cpp:50-59 | floor(log2 n) is the largest m with 2^m <= n |
| `Validation.PowerOfTwoCheck` | development/C++FFT/fft.cpp:64-65 | the test `2^levels != n` holds exactly when n is not a power of two, which includes n = 0 |
| `Validation.ComputeLevels` | development/C++FFT/fft.cpp:50-59 | the halving loop gives levels = 0 for n = 0, and otherwise the levels with 2^levels <= n < 2^(levels+1) |
| `Validation.CheckLengths` | development/C++FFT/fft.cpp:39-65 | different lengths fail with MismatchedLengths; equal lengths that are not a power of two fail with InvalidLength; otherwise it succeeds with levels, where 2^levels = n and levels < 32 |
| `Permutation.BitReversed` | development/C++FFT/fft.cpp:82-96 | defines the bit-reversed order: entry i is the old entry Rev(i, levels), and the length is kept |
| `Permutation.BitReversedInvolution` | development/C++FFT/fft.cpp:82-96 | putting a sequence in bit-reversed order twice restores it |
| `Permutation.BitReversedFixedPoints` | development/C++FFT/fft.cpp:85-86 | an entry whose index is its own reversal keeps its value |
| `Permutation.Swap` | development/C++FFT/fft.cpp:88-94 | exchanging two entries keeps the length and the multiset of entries |
| `Permutation.PlacedStep` | development/C++FFT/fft.cpp:85-95 | handling index i, with a swap exactly when j = Rev(i) > i, puts every pair whose smaller index is at most i in bit-reversed place and leaves every other entry as it was |
| `Permutation.ExchangedStep` | development/C++FFT/fft.cpp:86-95 | a swap at i touches i and j, neither of which has been swapped before, and the set of swapped indices grows by exactly {i, j} |
| `Permutation.PlacedComplete` | development/C++FFT/fft.cpp:82-96 | once every index has been handled the sequence is in bit-reversed order |
| `Permutation.Exchange` | development/C++FFT/fft.cpp:88-94 | the temp-variable swap exchanges the two entries of the array |
| `Permutation.SwapLogStep` | development/C++FFT/fft.cpp:85-86 | handling index i adds i to the log of swaps exactly when j = Rev(i) > i, so the log stays increasing and holds every index below i + 1 that lies below its reversal |
| `Permutation.SwapsDisjoint` | development/C++FFT/fft.cpp:82-96 | two different swaps of a finished pass touch no common index, so no entry is moved twice |
| `Permutation.PassStep` | development/C++FFT/fft.cpp:85-95 | one turn of the swap loop takes the pass state before i to the state before i + 1: placed pairs, multisets, moved indices and the swap log |
| `Permutation.BitReversePermutation` | development/C++FFT/fft.cpp:82-96 | afterwards entry i of both arrays is the old entry Rev(i, levels); both multisets are kept; the moved indices are exactly those that are not their own reversal; the swap log lists each swap by its smaller index, increasing, one per index below its reversal |
| `Butterfly.RotateIsProduct` | development/C++FFT/fft.cpp:107-108 | the twiddle product (tpre, tpim) is the bottom entry times the conjugate cos - i sin of the table entry |
| `Butterfly.ButterflyRecovers` | development/C++FFT/fft.cpp:107-116 | the new top and bottom sum to twice the old top and differ by twice the twiddle product, so the butterfly loses neither |
| `Butterfly.ApplyButterfly` | development/C++FFT/fft.cpp:107-116 | the butterfly at top j and bottom j + h changes those two entries of each part only, keeping the lengths |
| `Butterfly.Combine` | development/C++FFT/fft.cpp:105-118 | defines stage s on a block of 2^s entries: offset o of the upper half and of the lower half go through the butterfly with table index o * 2^(levels-s); the result has 2^s entries |
| `Butterfly.Block` | development/C++FFT/fft.cpp:102-122 | defines stages 1 .. s on a block of 2^s entries as stage s combining stages 1 .. s-1 on the two halves; the result has 2^s entries |
| `Butterfly.Twiddles` | development/C++FFT/fft.cpp:74-79 | both tables have n/2 entries, entry k being cosine(k, n) and sine(k, n) |
| `Butterfly.BuildTables` | development/C++FFT/fft.cpp:74-79 | the table loop fills two fresh arrays with exactly `Twiddles(n, cosine, sine)` |
| `Butterfly.StageParameters` | development/C++FFT/fft.cpp:103-104 | in stage s, halfsize = size/2 = 2^(s-1) and tablestep = n/size = 2^(levels-s) |
| `Butterfly.TwiddleIndex` | development/C++FFT/fft.cpp:106-108 | the table index reached by adding tablestep once per offset is below n/2 |
| `Butterfly.ShiftedSucc` | development/C++FFT/fft.cpp:105 | the next block start is the current one plus the block size |
| `Butterfly.ShiftedMonotone` | development/C++FFT/fft.cpp:105 | blocks at earlier starts end before later ones begin |
| `Butterfly.BlockFits` | development/C++FFT/fft.cpp:105 | a block that starts below n ends within n |
| `Butterfly.BlockHalves` | development/C++FFT/fft.cpp:105-106 | the block at q << s consists of the blocks 2q and 2q+1 of the previous stage |
| `Butterfly.ButterflyAdditive` | development/C++FFT/fft.cpp:107-116 | the butterfly of the sums of two inputs is the sum of their butterflies |
| `Butterfly.ButterflyHomogeneous` | development/C++FFT/fft.cpp:107-116 | the butterfly of scaled inputs is the scaled butterfly |
| `Butterfly.CombineAdditive` | development/C++FFT/fft.cpp:105-118 | one stage on a block maps the sum of two blocks to the sum of the results |
| `Butterfly.CombineHomogeneous` | development/C++FFT/fft.cpp:105-118 | one stage on a block commutes with scaling |
| `Butterfly.BlockAdditive` | development/C++FFT/fft.cpp:102-122 | stages 1 .. s map the sum of two blocks to the sum of the results |
| `Butterfly.BlockHomogeneous` | development/C++FFT/fft.cpp:102-122 | stages 1 .. s commute with scaling by a real constant |
| `Butterfly.BlockTotal` | development/C++FFT/fft.cpp:102-122 | with cos 0 = 1 and sin 0 = 0 in the tables, entry 0 after stages 1 .. s is the sum of the block |
| `Butterfly.CombineOnesZeros` | development/C++FFT/fft.cpp:107-116 | a stage whose top half is all ones and bottom half all zeros gives all ones, whatever the table values |
| `Butterfly.BlockZeros` | development/C++FFT/fft.cpp:102-122 | the network maps zeros to zeros |
| `Butterfly.BlockImpulse` | development/C++FFT/fft.cpp:102-122 | the network maps the unit impulse to all ones, whatever the table values |
| `Butterfly.TwoPoint` | development/C++FFT/fft.cpp:107-116 | with two entries and cos 0 = 1, sin 0 = 0 the network gives the sum and the difference |
| `Butterfly.ButterflyStep` | development/C++FFT/fft.cpp:107-116 | t is taken from the old bottom entry j + halfsize; afterwards the bottom holds top - t, the top holds top + t, and no other entry of either array changes |
| `Butterfly.ProgressStep` | development/C++FFT/fft.cpp:106-117 | the step at j, with the table entry that k = (j - i) * tablestep selects, extends the inner loop's state by one offset |
| `Butterfly.ProgressDone` | development/C++FFT/fft.cpp:106-117 | once j reaches i + halfsize, the block holds `Combine` of its two old halves and everything outside it is as before |
| `Butterfly.ButterflyBlock` | development/C++FFT/fft.cpp:106-117 | the inner loop turns the block of size entries at i into `Combine` of its old halves, and changes nothing outside the block |
| `Butterfly.HalvesDone` | development/C++FFT/fft.cpp:105-106 | after stages 1 .. s-1, both halves of the block at q << s hold those stages applied to their input |
| `Butterfly.CombineDone` | development/C++FFT/fft.cpp:105-118 | stage s, applied to a block whose halves hold stages 1 .. s-1 of the input, gives stages 1 .. s of that block |
| `Butterfly.StageStep` | development/C++FFT/fft.cpp:105-118 | one turn of the loop over blocks finishes the block at i and leaves the finished blocks before it alone |
| `Butterfly.ButterflyStage` | development/C++FFT/fft.cpp:105-118 | if every block of 2^(s-1) entries holds stages 1 .. s-1 of the input, afterwards every block of 2^s entries holds stages 1 .. s |
| `Butterfly.ScheduleStep` | development/C++FFT/fft.cpp:102-121 | a stage below n records its size and a doubled size that is at most n |
| `Butterfly.ScheduleLast` | development/C++FFT/fft.cpp:120-121 | the stage of size n is stage levels, and the loop leaves it without doubling |
| `Butterfly.ScheduleNone` | development/C++FFT/fft.cpp:102 | the loop runs no stage only when n = 1 |
| `Butterfly.ButterflyNetwork` | development/C++FFT/fft.cpp:102-122 | the vectors end up as `Block` over all levels of their old contents; exactly levels stages run, with sizes 2, 4, ..., n; `size * 2` is computed levels - 1 times, each time giving at most n |
| `Fft.Transform` | development/C++FFT/fft.cpp:37-125 | defines the transform of a vector of 2^levels entries as `Block` over all levels applied to its bit-reversed order, with the tables for n; the length is kept |
| `Fft.ContentsBitReversed` | development/C++FFT/fft.cpp:82-96 | reordering the real and imaginary parts reorders the complex entries in the same way |
| `Fft.TransformRadix2` | development/C++FFT/fft.cpp:37-125 | both failures leave both vectors unchanged; on success 2^levels = n and the vectors hold `Transform` of their old contents |
| `Fft.TransformAdditive` | development/C++FFT/fft.cpp:37-125 | the transform of a sum is the sum of the transforms |
| `Fft.TransformHomogeneous` | development/C++FFT/fft.cpp:37-125 | the transform commutes with scaling by a real constant |
| `Fft.BitReversedPermutes` | development/C++FFT/fft.cpp:82-96 | bit-reversed order keeps the multiset of entries |
| `Fft.TotalPermutation` | development/C++FFT/fft.cpp:82-96 | the sum of the entries does not depend on their order |
| `Fft.TransformSumAtZero` | development/C++FFT/fft.cpp:37-125 | entry 0 of the transform (the zero-frequency term) is the sum of the input, provided cosine(0, n) = 1 and sine(0, n) = 0 |
| `Fft.BitReversedImpulse` | development/C++FFT/fft.cpp:82-96 | the unit impulse is unchanged by the permutation |
| `Fft.TransformImpulse` | development/C++FFT/fft.cpp:37-125 | the transform of the unit impulse is all ones, whatever the table values |
| `Fft.TransformSingle` | development/C++FFT/fft.cpp:102-122 | with n = 1 no stage runs and the vectors are left as they were |
| `Fft.TransformTwoPoint` | development/C++FFT/fft.cpp:37-125 | with n = 2 and cos 0 = 1, sin 0 = 0 the result is the sum and the difference of the two entries |

## Left out

- The values in the twiddle tables, `cos(2 * M_PI * i / n)` and `sin(2 * M_PI * i / n)`, are not computed. Dafny has no trigonometry, so the model takes them from caller-supplied functions `cosine(k, n)` and `sine(k, n)`. The table loop itself is modelled.
- IEEE-754 double arithmetic and its rounding are not modelled. The butterflies compute over exact reals, so claims such as "the output equals the DFT" or "within tolerance" are out of scope. Only the properties that hold for any table values are proved, plus those that need only cos 0 = 1 and sin 0 = 0.
- `main`, `testFft` and `randomReals` are console and demo code built on `rand()` and `std::setw`.
- development/C++FFT/fft.h only declares the function.
- `Fft.TransformRadix2` requires `real` and `imag` to be different vectors. The same vector passed for both parts is an aliasing case the model does not cover.
- `Fft.TransformRadix2` requires `n < 2^32` when the lengths agree. `1u << levels` is a 32-bit unsigned shift, so levels of 32 or more would be an undefined shift in C++. That case is not modelled.
- `Validation.CheckLengths` carries the same `n < 2^32` requirement, for the same reason.
- `BitReversal.ReverseBits` takes `x` as an unbounded natural, not a 64-bit `size_t`. Its shifts of the result are reduced modulo 2^64 as in the source. The equality with `Rev` is stated only for `n <= 64`, the only case the permutation pass uses.
- The index variables `i`, `j`, `k`, `size` and `temp` are unbounded naturals. With `n < 2^32` none of them can wrap in `size_t`.
- The index set and the swap log of the permutation pass, and the lists of stage sizes and doubled sizes of the network, are ghost outputs that the source does not have. They state "no index is moved by two swaps" (with `Permutation.SwapsDisjoint`), "exactly levels stages run" and "size is never doubled past n".
- For `n = 0`, the code reports the length as not a power of two, because `levels` stays 0 and `1u << 0 = 1 != 0`. The model follows the code here.
