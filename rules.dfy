/**
 * The four dimension-selection rules of lPCA (`_FO`, `_maxgap`, `_ratio`,
 * `_fan`), each applied to the explained-variance spectrum of one local
 * neighbourhood. FO, maxgap and ratio only compute; fan first subtracts its
 * noise estimate from the spectrum array in place.
 */
module Rules {
  import opened Wrappers
  import opened Spectra

  /** A dimension together with the gap reported beside it. */
  datatype Estimate = Estimate(dimension: nat, gap: Quotient)

  /** The exceptions the rules raise. */
  datatype RuleError =
    | AllGapsNaN   // `np.nanargmax` on gaps that are all NaN (ValueError)
    | NoNoiseTail  // fan: no cumulative share exceeds PFan, so `[0][0]` fails (IndexError)
    | NoCutoff     // fan: `np.min` of an empty index array (ValueError)

  // ---------------------------------------------------------------------------
  // FO (Fukunaga-Olsen)

  /** FO: the number of eigenvalues strictly above `alphaFO * v[0]`. */
  function FO(v: seq<real>, alphaFO: real): Estimate
    requires |v| >= 2
  {
    var de := CountTrue(Above(v, alphaFO * v[0]));
    Estimate(de, GapAt(Gaps(v), de))
  }

  /** The eigenvalues FO counts are exactly the leading ones: v[0..de) lies
      above the threshold and the rest, ties included, do not. */
  lemma FOCountsLeadingEigenvalues(v: seq<real>, alphaFO: real)
    requires |v| >= 2 && IsSpectrum(v)
    ensures var de := FO(v, alphaFO).dimension;
      de <= |v| &&
      (forall i :: 0 <= i < de ==> v[i] > alphaFO * v[0]) &&
      (forall i :: de <= i < |v| ==> v[i] <= alphaFO * v[0])
  {
    var t := alphaFO * v[0];
    var m := Above(v, t);
    assert FO(v, alphaFO).dimension == CountTrue(m);
    assert PrefixClosed(m) by {
      forall i, j | 0 <= i <= j < |m| && m[j] ensures m[i] {
        assert v[j] <= v[i];
      }
    }
    CountTrueOfPrefix(m);
    assert forall i :: 0 <= i < |v| ==> (m[i] <==> v[i] > t);
  }

  /** With a non-degenerate spectrum and alphaFO below 1, FO keeps at least
      the largest eigenvalue. */
  lemma FOKeepsLargest(v: seq<real>, alphaFO: real)
    requires |v| >= 2 && IsSpectrum(v)
    requires v[0] > 0.0 && alphaFO < 1.0
    ensures 1 <= FO(v, alphaFO).dimension <= |v|
  {
    var t := alphaFO * v[0];
    ScaledDown(alphaFO, v[0]);
    assert v[0] > t;
    FOCountsLeadingEigenvalues(v, alphaFO);
    var de := FO(v, alphaFO).dimension;
    assert !(de <= 0 < |v|);
  }

  /** With alphaFO at least 1 nothing exceeds the threshold: FO returns 0
      (it does not clamp) and reports the last gap. */
  lemma FOZeroAtAlphaOne(v: seq<real>, alphaFO: real)
    requires |v| >= 2 && IsSpectrum(v)
    requires alphaFO >= 1.0
    ensures FO(v, alphaFO).dimension == 0
    ensures FO(v, alphaFO).gap == Gaps(v)[|v| - 2]
  {
    var t := alphaFO * v[0];
    ScaledUp(alphaFO, v[0]);
    assert v[0] <= t;
    FOCountsLeadingEigenvalues(v, alphaFO);
    var de := FO(v, alphaFO).dimension;
    assert !(0 < de);
  }

  lemma ScaledDown(a: real, x: real)
    requires a < 1.0 && x > 0.0
    ensures a * x < x
  {
  }

  lemma ScaledUp(a: real, x: real)
    requires a >= 1.0 && x >= 0.0
    ensures x <= a * x
  {
  }

  // ---------------------------------------------------------------------------
  // maxgap

  /** maxgap: one past the first position of the largest gap. */
  function MaxGap(v: seq<real>): Result<Estimate, RuleError>
    requires |v| >= 2
  {
    var gaps := Gaps(v);
    match NanArgMax(gaps)
    case None => Err(AllGapsNaN)
    case Some(k) => Ok(Estimate(k + 1, GapAt(gaps, k + 1)))
  }

  /** maxgap fails only on the all-zero spectrum. Otherwise it returns
      1 <= de <= d-1, and the reported gap is gaps[de-1]: the first gap that
      no other gap exceeds. */
  lemma MaxGapIsFirstLargestGap(v: seq<real>)
    requires |v| >= 2 && IsSpectrum(v)
    ensures MaxGap(v).Err? <==> v[0] == 0.0
    ensures MaxGap(v).Ok? ==>
      var de, gap, gaps := MaxGap(v).value.dimension, MaxGap(v).value.gap, Gaps(v);
      1 <= de <= |v| - 1 && gap == gaps[de - 1] && !gap.NaN? &&
      (forall j :: 0 <= j < |gaps| && !gaps[j].NaN? ==> AtMost(gaps[j], gap)) &&
      (forall j :: 0 <= j < de - 1 ==> !AtMost(gap, gaps[j]))
  {
    var gaps := Gaps(v);
    GapsOfSpectrum(v);
    if v[0] == 0.0 {
      forall i | 0 <= i < |gaps| ensures gaps[i].NaN? {
        assert v[i] <= v[0];
      }
    } else {
      assert !gaps[0].NaN?;
      NanArgMaxIsFirstLargest(gaps);
    }
  }

  // ---------------------------------------------------------------------------
  // ratio

  /** ratio: the first 1-based prefix whose raw cumulative sum exceeds
      alphaRatio, or d when none does. */
  function Ratio(v: seq<real>, alphaRatio: real): nat
  {
    var idx := Where(Above(CumSum(v), alphaRatio));
    if |idx| == 0 then |v| else Min(idx) + 1
  }

  /** ratio returns 1 <= de <= d. Every cumulative sum before position de-1
      is at most alphaRatio. The one at de-1 exceeds it whenever any cumulative
      sum does; otherwise de = d. */
  lemma RatioIsFirstCrossing(v: seq<real>, alphaRatio: real)
    requires |v| >= 1
    ensures var de, c := Ratio(v, alphaRatio), CumSum(v);
      1 <= de <= |v| &&
      (forall i :: 0 <= i < de - 1 ==> c[i] <= alphaRatio) &&
      ((exists i :: 0 <= i < |v| && c[i] > alphaRatio) ==> c[de - 1] > alphaRatio) &&
      ((forall i :: 0 <= i < |v| ==> c[i] <= alphaRatio) ==> de == |v|)
  {
    var c := CumSum(v);
    var m := Above(c, alphaRatio);
    var idx := Where(m);
    assert forall i :: 0 <= i < |v| ==> m[i] == (c[i] > alphaRatio);
    WhereFindsFirst(m);
    if |idx| == 0 {
      assert Ratio(v, alphaRatio) == |v|;
      assert forall i :: 0 <= i < |v| ==> !m[i];
    } else {
      var k := Min(idx);
      assert Ratio(v, alphaRatio) == k + 1;
      assert k < |v| && m[k];
      assert forall i :: 0 <= i < |v| && m[i] ==> k <= i;
    }
  }

  /** On a spectrum (non-negative entries) cumulative sums only grow. So once
      some cumulative sum exceeds alphaRatio, the positions where it does are
      exactly de-1 and after. */
  lemma RatioThresholdIsMonotone(v: seq<real>, alphaRatio: real, i: nat)
    requires |v| >= 1 && IsSpectrum(v)
    requires exists j :: 0 <= j < |v| && CumSum(v)[j] > alphaRatio
    requires i < |v|
    ensures CumSum(v)[i] > alphaRatio <==> Ratio(v, alphaRatio) <= i + 1
  {
    RatioIsFirstCrossing(v, alphaRatio);
    var de := Ratio(v, alphaRatio);
    if de <= i + 1 {
      PrefixSumsGrow(v, de, i + 1);
    }
  }

  // ---------------------------------------------------------------------------
  // fan (Fan et al.)

  /** The first index whose cumulative share exceeds PFan: where the noise tail
      starts. None when there is no such index (`[0][0]` fails). */
  function NoiseTailStart(v: seq<real>, pFan: real): (r: Option<nat>)
    ensures r.Some? ==> r.value < |v| && Exceeds(CumulativeShares(v)[r.value], pFan)
    ensures r.Some? ==> forall j :: 0 <= j < r.value ==> !Exceeds(CumulativeShares(v)[j], pFan)
    ensures r.None? <==> forall j :: 0 <= j < |v| ==> !Exceeds(CumulativeShares(v)[j], pFan)
  {
    FirstExceeding(CumulativeShares(v), pFan)
  }

  /** Index i passes fan's stopping rule on the shifted spectrum w: its gap
      exceeds alphaFan, or its cumulative share exceeds betaFan. */
  predicate PassesFanTest(w: seq<real>, i: nat, alphaFan: real, betaFan: real)
    requires i < |w|
  {
    (i < |w| - 1 && Exceeds(Gaps(w)[i], alphaFan)) || Exceeds(CumulativeShares(w)[i], betaFan)
  }

  /** The two masks fan hands to `np.where` report i exactly when i passes. */
  lemma FanTestIsEitherMask(w: seq<real>, alphaFan: real, betaFan: real)
    requires |w| >= 1
    ensures var byGap, byShare := QuotientsAbove(Gaps(w), alphaFan), QuotientsAbove(CumulativeShares(w), betaFan);
      |byGap| <= |byShare| &&
      forall i :: 0 <= i < |w| ==> (PassesFanTest(w, i, alphaFan, betaFan) <==> EitherAt(byGap, byShare, i))
  {
    var gaps, shares := Gaps(w), CumulativeShares(w);
    var byGap, byShare := QuotientsAbove(gaps, alphaFan), QuotientsAbove(shares, betaFan);
    assert forall i :: 0 <= i < |gaps| ==> byGap[i] == Exceeds(gaps[i], alphaFan);
    assert forall i :: 0 <= i < |w| ==> byShare[i] == Exceeds(shares[i], betaFan);
  }

  /** `1 + np.min(np.concatenate((where(gaps > alphaFan), where(shares > betaFan))))`:
      one past the first index that passes either test. None when neither
      test passes anywhere, so the minimum is over an empty array. */
  function FanCutoff(w: seq<real>, alphaFan: real, betaFan: real): (r: Option<nat>)
    requires |w| >= 1
    ensures r.Some? ==> 1 <= r.value <= |w| && PassesFanTest(w, r.value - 1, alphaFan, betaFan)
    ensures r.Some? ==> forall j :: 0 <= j < r.value - 1 ==> !PassesFanTest(w, j, alphaFan, betaFan)
    ensures r.None? <==> forall j :: 0 <= j < |w| ==> !PassesFanTest(w, j, alphaFan, betaFan)
  {
    var byGap, byShare := QuotientsAbove(Gaps(w), alphaFan), QuotientsAbove(CumulativeShares(w), betaFan);
    FanTestIsEitherMask(w, alphaFan, betaFan);
    match FirstOfEither(byGap, byShare)
    case None => None
    case Some(k) => Some(1 + k)
  }

  /** The state fan leaves behind: what it returns or raises, and the contents
      of the spectrum array afterwards. */
  datatype FanRun = FanRun(outcome: Result<Estimate, RuleError>, spectrum: seq<real>)

  /** fan, as a function of the spectrum before the call. */
  function FanRule(v: seq<real>, alphaFan: real, betaFan: real, pFan: real): FanRun
    requires |v| >= 2
  {
    match NoiseTailStart(v, pFan)
    case None => FanRun(Err(NoNoiseTail), v)
    case Some(r) =>
      var w := Shifted(v, Mean(v[r..]));
      match FanCutoff(w, alphaFan, betaFan)
      case None => FanRun(Err(NoCutoff), w)
      case Some(de) => FanRun(Ok(Estimate(de, GapAt(Gaps(w), de))), w)
  }

  /** `explained_var -= sigma`, in place. */
  method ShiftInPlace(a: array<real>, sigma: real)
    modifies a
    ensures a[..] == Shifted(old(a[..]), sigma)
  {
    var i := 0;
    while i < a.Length
      invariant 0 <= i <= a.Length
      invariant forall k :: 0 <= k < i ==> a[k] == old(a[k]) - sigma
      invariant forall k :: i <= k < a.Length ==> a[k] == old(a[k])
    {
      a[i] := a[i] - sigma;
      i := i + 1;
    }
  }

  /** fan on the spectrum array. Finds the noise tail, subtracts its mean from
      every entry of the array, then applies the stopping rule to the shifted
      values. */
  method Fan(ev: array<real>, alphaFan: real, betaFan: real, pFan: real)
    returns (outcome: Result<Estimate, RuleError>)
    requires ev.Length >= 2
    modifies ev
    ensures FanRun(outcome, ev[..]) == FanRule(old(ev[..]), alphaFan, betaFan, pFan)
  {
    var v := ev[..];
    var tail := NoiseTailStart(v, pFan);
    if tail.None? {
      return Err(NoNoiseTail);
    }
    var sigma := Mean(v[tail.value..]);
    ShiftInPlace(ev, sigma);
    var w := ev[..];
    var cut := FanCutoff(w, alphaFan, betaFan);
    if cut.None? {
      return Err(NoCutoff);
    }
    outcome := Ok(Estimate(cut.value, GapAt(Gaps(w), cut.value)));
  }

  /** A spectrum with positive total always has a noise tail when PFan < 1:
      the full prefix has share 1. */
  lemma NoiseTailExists(v: seq<real>, pFan: real)
    requires |v| >= 1 && Sum(v) > 0.0 && pFan < 1.0
    ensures NoiseTailStart(v, pFan).Some?
  {
    FullShareIsOne(v);
  }

  /** After the shift, the noise tail sums to zero, and the shifted spectrum
      keeps its order. */
  lemma FanShiftCentresTail(v: seq<real>, alphaFan: real, betaFan: real, pFan: real)
    requires |v| >= 2 && NoiseTailStart(v, pFan).Some?
    ensures var r, w := NoiseTailStart(v, pFan).value, FanRule(v, alphaFan, betaFan, pFan).spectrum;
      w == Shifted(v, Mean(v[r..])) && Sum(w[r..]) == 0.0 &&
      (NonIncreasing(v) ==> NonIncreasing(w))
  {
    var r := NoiseTailStart(v, pFan).value;
    FanRuleShifts(v, alphaFan, betaFan, pFan);
    TailSumsToZero(v, r);
    if NonIncreasing(v) {
      ShiftKeepsOrder(v, Mean(v[r..]));
    }
  }

  /** Once the noise tail is found, fan leaves the shifted spectrum in the
      array whether or not a cutoff exists. */
  lemma FanRuleShifts(v: seq<real>, alphaFan: real, betaFan: real, pFan: real)
    requires |v| >= 2 && NoiseTailStart(v, pFan).Some?
    ensures FanRule(v, alphaFan, betaFan, pFan).spectrum
         == Shifted(v, Mean(v[NoiseTailStart(v, pFan).value..]))
  {
  }

  /** Subtracting a constant keeps a non-increasing sequence non-increasing. */
  lemma ShiftKeepsOrder(v: seq<real>, c: real)
    requires NonIncreasing(v)
    ensures NonIncreasing(Shifted(v, c))
  {
    var w := Shifted(v, c);
    forall i, j | 0 <= i <= j < |w| ensures w[j] <= w[i] {
      assert v[j] <= v[i];
    }
  }

  /** Subtracting the mean of a tail leaves that tail summing to zero. */
  lemma TailSumsToZero(v: seq<real>, r: nat)
    requires r < |v|
    ensures Sum(Shifted(v, Mean(v[r..]))[r..]) == 0.0
  {
    var tail := v[r..];
    var sigma := Mean(tail);
    SumOfShifted(tail, sigma);
    assert Shifted(v, sigma)[r..] == Shifted(tail, sigma);
  }

  /** The mean of a tail of a spectrum is at most the tail's first entry, and
      it reaches the spectrum's largest entry only when the spectrum is flat. */
  lemma TailMeanBounds(v: seq<real>, r: nat)
    requires NonIncreasing(v) && r < |v|
    ensures Mean(v[r..]) <= v[r]
    ensures Mean(v[r..]) < v[0] || forall i :: 0 <= i < |v| ==> v[i] == v[0]
  {
    var tail := v[r..];
    assert forall i :: 0 <= i < |tail| ==> tail[i] <= v[r];
    MeanAtMost(tail, v[r]);
    if Mean(tail) >= v[0] {
      assert v[r] == v[0] && Mean(tail) == v[r];
      forall i | 0 <= i < |v|
        ensures v[i] == v[0]
      {
        if i >= r {
          assert tail[i - r] == v[i];
        }
      }
    }
  }

  /** Subtracting the mean of a tail never makes the total negative: every
      entry before the tail is at least the tail's first entry. */
  lemma ShiftedTotalNonNegative(v: seq<real>, r: nat)
    requires NonIncreasing(v) && r < |v|
    ensures Sum(Shifted(v, Mean(v[r..]))) >= 0.0
  {
    var tail := v[r..];
    var sigma := Mean(tail);
    var w := Shifted(v, sigma);
    TailSumsToZero(v, r);
    assert Sum(w[..r]) >= 0.0 by {
      // Every shifted head entry is at least v[r] - sigma >= 0.
      TailMeanBounds(v, r);
      assert forall i :: 0 <= i < r ==> w[..r][i] >= 0.0;
      SumAtLeast(w[..r], 0.0);
    }
    SumSplit(w, r);
  }

  /** An all-zero shifted spectrum: every gap and every share is NaN, so no
      index passes and fan raises. */
  lemma ZeroSpectrumHasNoCutoff(w: seq<real>, alphaFan: real, betaFan: real)
    requires |w| >= 1 && forall i :: 0 <= i < |w| ==> w[i] == 0.0
    ensures FanCutoff(w, alphaFan, betaFan).None?
  {
    ZeroSharesAreNaN(w);
    forall j | 0 <= j < |w|
      ensures !PassesFanTest(w, j, alphaFan, betaFan)
    {
      assert CumulativeShares(w)[j].NaN?;
    }
  }

  /** On an all-zero sequence every cumulative sum is zero, so every share is NaN. */
  lemma ZeroSharesAreNaN(w: seq<real>)
    requires forall i :: 0 <= i < |w| ==> w[i] == 0.0
    ensures Sum(w) == 0.0
    ensures forall j :: 0 <= j < |w| ==> CumSum(w)[j] == 0.0 && CumulativeShares(w)[j].NaN?
  {
    SumAtMost(w, 0.0);
    SumAtLeast(w, 0.0);
    forall j | 0 <= j < |w|
      ensures CumSum(w)[j] == 0.0 && CumulativeShares(w)[j].NaN?
    {
      var front := w[..j + 1];
      SumAtMost(front, 0.0);
      SumAtLeast(front, 0.0);
      assert CumSum(w)[j] == Sum(front);
    }
  }

  /** What each rule does on the all-zero spectrum: FO counts nothing, maxgap
      raises on its all-NaN gaps, ratio returns d unless alphaRatio is
      negative (then 1), and fan finds no noise tail, leaving the array as it
      was. */
  lemma ZeroSpectrumOutcomes(v: seq<real>, alphaFO: real, alphaRatio: real,
                             alphaFan: real, betaFan: real, pFan: real)
    requires |v| >= 2 && forall i :: 0 <= i < |v| ==> v[i] == 0.0
    ensures FO(v, alphaFO).dimension == 0
    ensures MaxGap(v) == Err(AllGapsNaN)
    ensures Ratio(v, alphaRatio) == if alphaRatio >= 0.0 then |v| else 1
    ensures FanRule(v, alphaFan, betaFan, pFan) == FanRun(Err(NoNoiseTail), v)
  {
    var m := Above(v, alphaFO * v[0]);
    assert forall i :: 0 <= i < |m| ==> !m[i];
    assert forall i :: 0 <= i < |v| - 1 ==> Gaps(v)[i].NaN?;
    ZeroSharesAreNaN(v);
    RatioIsFirstCrossing(v, alphaRatio);
    if alphaRatio < 0.0 {
      assert CumSum(v)[0] > alphaRatio;
    }
  }

  /** A shifted spectrum with a positive first entry and a non-negative total
      always has a passing index when betaFan < 1: the last one (share 1) when
      the total is positive, the first one (share +inf) when it is zero. */
  lemma CutoffExists(w: seq<real>, alphaFan: real, betaFan: real)
    requires |w| >= 1 && w[0] > 0.0 && Sum(w) >= 0.0 && betaFan < 1.0
    ensures FanCutoff(w, alphaFan, betaFan).Some?
  {
    if Sum(w) > 0.0 {
      FullShareIsOne(w);
      PassingIndexGivesCutoff(w, |w| - 1, alphaFan, betaFan);
    } else {
      FirstShareAtZeroTotal(w);
      PassingIndexGivesCutoff(w, 0, alphaFan, betaFan);
    }
  }

  lemma PassingIndexGivesCutoff(w: seq<real>, k: nat, alphaFan: real, betaFan: real)
    requires k < |w| && Exceeds(CumulativeShares(w)[k], betaFan)
    ensures FanCutoff(w, alphaFan, betaFan).Some?
  {
    assert PassesFanTest(w, k, alphaFan, betaFan);
  }

  /** With total zero, a positive first entry has share +inf. */
  lemma FirstShareAtZeroTotal(w: seq<real>)
    requires |w| >= 1 && w[0] > 0.0 && Sum(w) == 0.0
    ensures CumulativeShares(w)[0] == PosInf
  {
    assert w[..1][..0] == [];
    assert CumSum(w)[0] == Sum(w[..1]);
    assert Sum(w[..1]) == Sum(w[..1][..0]) + w[..1][0];
  }

  /** A flat spectrum (every eigenvalue equal) with positive total and PFan < 1:
      the shift leaves only zeros, every gap and share is NaN, and fan raises
      the no-cutoff error. */
  lemma FanFailsOnFlatSpectrum(v: seq<real>, alphaFan: real, betaFan: real, pFan: real)
    requires |v| >= 2 && Sum(v) > 0.0 && pFan < 1.0
    requires forall i :: 0 <= i < |v| ==> v[i] == v[0]
    ensures FanRule(v, alphaFan, betaFan, pFan).outcome == Err(NoCutoff)
  {
    NoiseTailExists(v, pFan);
    var r := NoiseTailStart(v, pFan).value;
    var w := Shifted(v, Mean(v[r..]));
    FlatShiftIsZero(v, r);
    ZeroSpectrumHasNoCutoff(w, alphaFan, betaFan);
  }

  /** On a flat spectrum every tail has the common value as its mean, so
      subtracting it leaves only zeros. */
  lemma FlatShiftIsZero(v: seq<real>, r: nat)
    requires r < |v| && forall i :: 0 <= i < |v| ==> v[i] == v[0]
    ensures forall i :: 0 <= i < |v| ==> Shifted(v, Mean(v[r..]))[i] == 0.0
  {
    var tail := v[r..];
    assert forall i :: 0 <= i < |tail| ==> tail[i] == v[0];
    MeanAtMost(tail, v[0]);
    MeanAtLeast(tail, v[0]);
  }

  /** A spectrum that is not flat, with positive total, PFan < 1 and
      betaFan < 1: after the shift the largest entry is positive and the total
      is non-negative, so some index passes and fan returns 1 <= de <= d. */
  lemma FanSucceedsOnNonFlatSpectrum(v: seq<real>, alphaFan: real, betaFan: real, pFan: real)
    requires |v| >= 2 && IsSpectrum(v) && Sum(v) > 0.0
    requires pFan < 1.0 && betaFan < 1.0
    requires exists i :: 0 <= i < |v| && v[i] != v[0]
    ensures var outcome := FanRule(v, alphaFan, betaFan, pFan).outcome;
      outcome.Ok? && 1 <= outcome.value.dimension <= |v|
  {
    NoiseTailExists(v, pFan);
    var r := NoiseTailStart(v, pFan).value;
    var w := Shifted(v, Mean(v[r..]));
    TailMeanBounds(v, r);
    assert w[0] > 0.0;
    ShiftedTotalNonNegative(v, r);
    CutoffExists(w, alphaFan, betaFan);
  }

  /** On a spectrum with positive total, PFan < 1 and betaFan < 1, fan raises
      exactly when every eigenvalue is equal, and then with the no-cutoff
      error. Otherwise it returns a dimension 1 <= de <= d. */
  lemma FanFailsOnlyOnFlatSpectrum(v: seq<real>, alphaFan: real, betaFan: real, pFan: real)
    requires |v| >= 2 && IsSpectrum(v) && Sum(v) > 0.0
    requires pFan < 1.0 && betaFan < 1.0
    ensures var outcome := FanRule(v, alphaFan, betaFan, pFan).outcome;
      (outcome.Err? <==> forall i :: 0 <= i < |v| ==> v[i] == v[0]) &&
      (outcome.Err? ==> outcome.error == NoCutoff) &&
      (outcome.Ok? ==> 1 <= outcome.value.dimension <= |v|)
  {
    if forall i :: 0 <= i < |v| ==> v[i] == v[0] {
      FanFailsOnFlatSpectrum(v, alphaFan, betaFan, pFan);
    } else {
      FanSucceedsOnNonFlatSpectrum(v, alphaFan, betaFan, pFan);
    }
  }
}
