/**
 * The per-pair part of `printAttemptEstimates`: a pair of n nibbles in total
 * is matched by one random address in 2^(4n) tries on average; half as many
 * give an even chance. The program prints these as `float64`; every value is
 * a power of two no larger than 2^320, so `float64` holds it exactly and
 * `real` is used here. The harmonic sum of the reciprocals is accumulated
 * over `real` too, which idealises the program's floating-point sum.
 */
module Estimator {
  import opened Wrappers

  function Pow2(n: nat): (r: nat)
    ensures r >= 1
  {
    if n == 0 then 1 else 2 * Pow2(n - 1)
  }

  lemma {:induction false} Pow2Add(a: nat, b: nat)
    ensures Pow2(a + b) == Pow2(a) * Pow2(b)
  {
    if a > 0 {
      Pow2Add(a - 1, b);
    }
  }

  /** `numBits`: four bits per nibble of prefix and suffix together. */
  function PairBits(prefix: string, suffix: string): nat {
    4 * (|prefix| + |suffix|)
  }

  /** One printed line: the pair's bits, attempts for 100% and for 50%. */
  datatype PairEstimate = PairEstimate(bits: nat, full: real, half: real)

  function EstimatePair(prefix: string, suffix: string): (e: PairEstimate)
    ensures e.bits % 4 == 0 && e.full >= 1.0 && 2.0 * e.half == e.full
  {
    var bits := PairBits(prefix, suffix);
    PairEstimate(bits, Pow2(bits) as real, Pow2(bits) as real / 2.0)
  }

  /**
   * Each extra nibble on either side multiplies the expected attempts by 16;
   * the 50% figure is always half of the 100% figure.
   */
  lemma {:induction false} EstimateIsSixteenPerNibble(prefix: string, suffix: string, c: char)
    ensures EstimatePair(prefix + [c], suffix).full == 16.0 * EstimatePair(prefix, suffix).full
    ensures EstimatePair(prefix, suffix + [c]).full == 16.0 * EstimatePair(prefix, suffix).full
    ensures 2.0 * EstimatePair(prefix, suffix).half == EstimatePair(prefix, suffix).full
  {
    var bits := PairBits(prefix, suffix);
    Pow2Add(4, bits);
    assert Pow2(4) == 16;
    assert PairBits(prefix + [c], suffix) == 4 + bits;
    assert PairBits(prefix, suffix + [c]) == 4 + bits;
  }

  /** The 100% figure is 16 to the power of the pair's nibble count. */
  lemma {:induction false} EstimateIsPowerOf16(prefix: string, suffix: string)
    ensures EstimatePair(prefix, suffix).full == Pow16(|prefix| + |suffix|) as real
  {
    Pow2IsPow16(|prefix| + |suffix|);
  }

  function Pow16(n: nat): nat {
    if n == 0 then 1 else 16 * Pow16(n - 1)
  }

  lemma {:induction false} Pow2IsPow16(n: nat)
    ensures Pow2(4 * n) == Pow16(n)
  {
    if n > 0 {
      Pow2IsPow16(n - 1);
      Pow2Add(4, 4 * (n - 1));
      assert Pow2(4) == 16;
      assert 4 * n == 4 + 4 * (n - 1);
    }
  }

  /** Prefix "a" with no suffix: 4 bits, 16 attempts for 100% and 8 for 50%. */
  lemma SingleNibbleExample()
    ensures EstimatePair("a", "") == PairEstimate(4, 16.0, 8.0)
  {
    assert Pow2(4) == 16;
  }

  /** `harmonicSum`: the sum of 1 / 2^bits over the pairs, in order. */
  function HarmonicSum(pairs: seq<PairEstimate>): (h: real)
    ensures h >= 0.0
  {
    if pairs == [] then 0.0
    else HarmonicSum(pairs[..|pairs| - 1]) + 1.0 / (Pow2(pairs[|pairs| - 1].bits) as real)
  }

  /**
   * Each pair adds a positive amount of at most 1, so the sum is positive
   * exactly when there is a pair (with no pairs the program's `1.0/harmonicSum`
   * divides by zero) and never exceeds the number of pairs.
   */
  lemma {:induction false} HarmonicSumBounds(pairs: seq<PairEstimate>)
    ensures 0.0 <= HarmonicSum(pairs) <= |pairs| as real
    ensures HarmonicSum(pairs) > 0.0 <==> pairs != []
  {
    if pairs != [] {
      HarmonicSumBounds(pairs[..|pairs| - 1]);
      var p := Pow2(pairs[|pairs| - 1].bits) as real;
      assert 0.0 < 1.0 / p <= 1.0;
    }
  }

  lemma HarmonicSumAppend(pairs: seq<PairEstimate>, e: PairEstimate)
    ensures HarmonicSum(pairs + [e]) == HarmonicSum(pairs) + 1.0 / (Pow2(e.bits) as real)
  {
    assert (pairs + [e])[..|pairs|] == pairs;
  }

  /** The whole per-pair report. */
  datatype EstimateReport = EstimateReport(pairs: seq<PairEstimate>, harmonicSum: real)

  /** `suffixes[i]` is read for every index of `prefixes`: a shorter suffix list panics there. */
  datatype EstimatorError = IndexOutOfRange(index: nat)

  /** Reference definition of what the estimator loop produces. */
  function Estimates(prefixes: seq<string>, suffixes: seq<string>): (r: Result<EstimateReport, EstimatorError>)
    ensures r.Failure? <==> |suffixes| < |prefixes|
    ensures r.Success? ==> |r.value.pairs| == |prefixes|
    ensures r.Success? ==> forall i :: 0 <= i < |prefixes| ==>
              r.value.pairs[i] == EstimatePair(prefixes[i], suffixes[i])
  {
    if |suffixes| < |prefixes| then Failure(IndexOutOfRange(|suffixes|))
    else
      var pairs := seq(|prefixes|, i requires 0 <= i < |prefixes| => EstimatePair(prefixes[i], suffixes[i]));
      Success(EstimateReport(pairs, HarmonicSum(pairs)))
  }

  /**
   * The loop of `printAttemptEstimates` at lines 218-227, without its output:
   * one estimate per prefix, and the running harmonic sum.
   */
  method PrintAttemptEstimates(prefixes: seq<string>, suffixes: seq<string>)
    returns (r: Result<EstimateReport, EstimatorError>)
    ensures r == Estimates(prefixes, suffixes)
  {
    var harmonicSum := 0.0;
    var pairs: seq<PairEstimate> := [];
    for i := 0 to |prefixes|
      invariant |pairs| == i <= |suffixes|
      invariant forall j :: 0 <= j < i ==> pairs[j] == EstimatePair(prefixes[j], suffixes[j])
      invariant harmonicSum == HarmonicSum(pairs)
    {
      if i >= |suffixes| {
        return Failure(IndexOutOfRange(i));
      }
      var numNibbles := |prefixes[i]| + |suffixes[i]|;
      var numBits := 4 * numNibbles;
      var numAttempts := Pow2(numBits) as real;
      harmonicSum := harmonicSum + 1.0 / numAttempts;
      var e := PairEstimate(numBits, numAttempts, numAttempts / 2.0);
      assert e == EstimatePair(prefixes[i], suffixes[i]);
      HarmonicSumAppend(pairs, e);
      pairs := pairs + [e];
    }
    assert pairs == Estimates(prefixes, suffixes).value.pairs;
    r := Success(EstimateReport(pairs, harmonicSum));
  }
}
