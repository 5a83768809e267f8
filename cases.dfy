/**
 * Concrete spectra worked through the rules, read off their general lemmas.
 */
module Cases {
  import opened Wrappers
  import opened Spectra
  import opened Rules

  /** A five-eigenvalue spectrum with two dominant directions. */
  function Sample(): seq<real>
  {
    [10.0, 9.0, 1.0, 0.9, 0.1]
  }

  lemma SampleIsSpectrum()
    ensures IsSpectrum(Sample())
  {
  }

  /** FO with alphaFO = 0.05 keeps the four eigenvalues above 0.5 and reports
      the gap 0.9 / 0.1 = 9. */
  lemma FOOnSample()
    ensures FO(Sample(), 0.05) == Estimate(4, Finite(9.0))
  {
    var v := Sample();
    SampleIsSpectrum();
    FOCountsLeadingEigenvalues(v, 0.05);
    var de := FO(v, 0.05).dimension;
    assert v[3] > 0.05 * v[0];
    assert v[4] <= 0.05 * v[0];
    assert de == 4;
    assert Gaps(v)[3] == Div(0.9, 0.1);
  }

  /** maxgap: the gaps are 10/9, 9, 10/9, 9. The largest, 9, comes first at
      index 1, so the dimension is 2. */
  lemma MaxGapOnSample()
    ensures MaxGap(Sample()) == Ok(Estimate(2, Finite(9.0)))
  {
    var v := Sample();
    SampleIsSpectrum();
    MaxGapIsFirstLargestGap(v);
    GapsOfSample();
    var gaps := Gaps(v);
    var de := MaxGap(v).value.dimension;
    var gap := gaps[de - 1];
    assert AtMost(gaps[1], gap);
    assert de != 1 && de != 3;
    assert de != 4 by {
      assert AtMost(gaps[3], gaps[1]);
    }
  }

  /** The sample's gaps, entry by entry. */
  lemma GapsOfSample()
    ensures Gaps(Sample()) == [Finite(10.0 / 9.0), Finite(9.0), Finite(1.0 / 0.9), Finite(9.0)]
  {
    var v := Sample();
    var gaps := Gaps(v);
    assert |gaps| == 4;
    assert gaps[0] == Div(10.0, 9.0) && gaps[1] == Div(9.0, 1.0);
    assert gaps[2] == Div(1.0, 0.9) && gaps[3] == Div(0.9, 0.1);
  }

  /** One zero eigenvalue after a positive one: the last gap is 1/0 = +inf,
      not NaN, and maxgap picks it. */
  lemma MaxGapOnTrailingZero()
    ensures Gaps([3.0, 1.0, 0.0]) == [Finite(3.0), PosInf]
    ensures MaxGap([3.0, 1.0, 0.0]) == Ok(Estimate(2, PosInf))
  {
    var v := [3.0, 1.0, 0.0];
    MaxGapIsFirstLargestGap(v);
    var gaps := Gaps(v);
    assert gaps[0] == Div(3.0, 1.0) && gaps[1] == Div(1.0, 0.0);
    assert gaps == [Finite(3.0), PosInf];
    var de := MaxGap(v).value.dimension;
    assert de != 1 by {
      assert AtMost(gaps[1], gaps[de - 1]);
    }
  }

  /** Two zero eigenvalues: the gap 0/0 is NaN, and maxgap skips it in favour
      of the +inf gap before it. */
  lemma MaxGapOnTwoZeros()
    ensures Gaps([3.0, 0.0, 0.0]) == [PosInf, NaN]
    ensures MaxGap([3.0, 0.0, 0.0]) == Ok(Estimate(1, PosInf))
  {
    var v := [3.0, 0.0, 0.0];
    MaxGapIsFirstLargestGap(v);
    var gaps := Gaps(v);
    assert gaps[0] == Div(3.0, 0.0) && gaps[1] == Div(0.0, 0.0);
    assert gaps == [PosInf, NaN];
  }

  /** ratio compares raw cumulative variance: with alphaRatio = 0.05 the first
      eigenvalue alone, 10, already passes, so the dimension is 1. */
  lemma RatioOnSample()
    ensures Ratio(Sample(), 0.05) == 1
  {
    var v := Sample();
    RatioIsFirstCrossing(v, 0.05);
    CumSumOfFive(v);
    var de := Ratio(v, 0.05);
    assert !(0 < de - 1);
  }

  lemma SumStep(s: seq<real>, i: nat)
    requires i < |s|
    ensures Sum(s[..i + 1]) == Sum(s[..i]) + s[i]
  {
    assert s[..i + 1][..i] == s[..i];
  }

  /** The running sums of a five-entry sequence. */
  lemma CumSumOfFive(s: seq<real>)
    requires |s| == 5
    ensures CumSum(s)[0] == s[0] && CumSum(s)[1] == s[0] + s[1]
    ensures CumSum(s)[2] == s[0] + s[1] + s[2]
    ensures CumSum(s)[3] == s[0] + s[1] + s[2] + s[3]
    ensures Sum(s) == CumSum(s)[4] == s[0] + s[1] + s[2] + s[3] + s[4]
  {
    assert s[..0] == [];
    SumStep(s, 0);
    SumStep(s, 1);
    SumStep(s, 2);
    SumStep(s, 3);
    SumStep(s, 4);
    assert s[..5] == s;
  }

  /** The sample's noise tail starts at index 2, where the cumulative share
      first passes 0.95 (20/21). */
  lemma NoiseTailOfSample()
    ensures NoiseTailStart(Sample(), 0.95) == Some(2)
  {
    var v := Sample();
    CumSumOfFive(v);
    var shares := CumulativeShares(v);
    assert shares[0] == Div(10.0, 21.0) && shares[1] == Div(19.0, 21.0) && shares[2] == Div(20.0, 21.0);
    assert !Exceeds(shares[0], 0.95) && !Exceeds(shares[1], 0.95) && Exceeds(shares[2], 0.95);
    var r := NoiseTailStart(v, 0.95);
    assert r.Some?;
    assert r.value >= 2;
  }

  /** The noise tail [1, 0.9, 0.1] has mean 2/3. */
  lemma NoiseLevelOfSample()
    ensures Mean(Sample()[2..]) == 2.0 / 3.0
  {
    var tail := Sample()[2..];
    assert tail == [1.0, 0.9, 0.1];
    assert tail[..0] == [];
    SumStep(tail, 0);
    SumStep(tail, 1);
    SumStep(tail, 2);
    assert tail[..3] == tail;
  }

  /** The sample after subtracting its noise level. */
  function ShiftedSample(): seq<real>
  {
    Shifted(Sample(), 2.0 / 3.0)
  }

  /** Its first three cumulative shares: 28/53, 1 and 54/53. */
  lemma SharesOfShiftedSample()
    ensures CumulativeShares(ShiftedSample())[0] == Finite(28.0 / 53.0)
    ensures CumulativeShares(ShiftedSample())[1] == Finite(1.0)
    ensures CumulativeShares(ShiftedSample())[2] == Finite(54.0 / 53.0)
  {
    var w := ShiftedSample();
    assert w[0] == 28.0 / 3.0 && w[1] == 25.0 / 3.0 && w[2] == 1.0 / 3.0;
    assert w[3] + w[4] == -1.0 / 3.0;
    CumSumOfFive(w);
    assert Sum(w) == 53.0 / 3.0;
  }

  /** Its first two gaps: 28/25 and 25. */
  lemma GapsOfShiftedSample()
    ensures Gaps(ShiftedSample())[0] == Finite(28.0 / 25.0)
    ensures Gaps(ShiftedSample())[1] == Finite(25.0)
  {
    var w := ShiftedSample();
    assert w[0] == 28.0 / 3.0 && w[1] == 25.0 / 3.0 && w[2] == 1.0 / 3.0;
  }

  /** Index 2 passes betaFan = 1 although no earlier gap passes alphaFan = 1e9. */
  lemma CutoffOfShiftedSample()
    ensures FanCutoff(ShiftedSample(), 1000000000.0, 1.0) == Some(3)
  {
    var w := ShiftedSample();
    SharesOfShiftedSample();
    GapsOfShiftedSample();
    assert !PassesFanTest(w, 0, 1000000000.0, 1.0);
    assert !PassesFanTest(w, 1, 1000000000.0, 1.0);
    assert PassesFanTest(w, 2, 1000000000.0, 1.0);
    var cut := FanCutoff(w, 1000000000.0, 1.0);
    assert cut.Some?;
    var k := cut.value - 1;
    assert k != 0 && k != 1;
    assert !(2 < k);
  }

  /** fan with PFan = 0.95, alphaFan = 1e9 and betaFan = 1 on the sample: a
      unit betaFan does not make the share test unreachable, because shares of
      the shifted spectrum can pass 1. fan returns 3 rather than raising. */
  lemma FanOnSampleWithUnitBeta()
    ensures FanRule(Sample(), 1000000000.0, 1.0, 0.95).outcome.Ok?
    ensures FanRule(Sample(), 1000000000.0, 1.0, 0.95).outcome.value.dimension == 3
  {
    NoiseTailOfSample();
    NoiseLevelOfSample();
    CutoffOfShiftedSample();
  }
}
