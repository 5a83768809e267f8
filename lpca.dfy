/**
 * The lPCA estimator: its parameters, the `ver` dispatch of `_pcaLocalDimEst`
 * and `fit`, which validates the sample matrix and stores the dimension (and,
 * for every version but ratio, the gap) on the estimator.
 *
 * The PCA fit itself is not modelled: `fit` receives the shape of the sample
 * matrix, whether all of its entries are finite, and the explained variances
 * PCA would compute from it.
 */
module LocalPca {
  import opened Wrappers
  import opened Spectra
  import opened Rules

  /** The constructor arguments that select and tune the rule. */
  datatype Params = Params(
    ver: string,
    alphaRatio: real,
    alphaFO: real,
    alphaFan: real,
    betaFan: real,
    pFan: real)

  /** What `_pcaLocalDimEst` returns: a `(de, gap)` pair (FO, fan, maxgap),
      a bare `de` (ratio), or None (any other version). */
  datatype Returned = Pair(estimate: Estimate) | Single(dimension: nat) | NoneReturned

  /** `_pcaLocalDimEst` as a function of the spectrum: its result and the
      spectrum array afterwards (only fan changes it). */
  datatype DimEstRun = DimEstRun(outcome: Result<Returned, RuleError>, spectrum: seq<real>)

  /** A rule's `(de, gap)` result, or the exception it raised. */
  function AsPair(r: Result<Estimate, RuleError>): Result<Returned, RuleError>
  {
    match r
    case Ok(e) => Ok(Pair(e))
    case Err(err) => Err(err)
  }

  function DimEst(p: Params, v: seq<real>): DimEstRun
    requires |v| >= 2
  {
    if p.ver == "FO" then DimEstRun(Ok(Pair(FO(v, p.alphaFO))), v)
    else if p.ver == "fan" then
      var run := FanRule(v, p.alphaFan, p.betaFan, p.pFan);
      DimEstRun(AsPair(run.outcome), run.spectrum)
    else if p.ver == "maxgap" then DimEstRun(AsPair(MaxGap(v)), v)
    else if p.ver == "ratio" then DimEstRun(Ok(Single(Ratio(v, p.alphaRatio))), v)
    else DimEstRun(Ok(NoneReturned), v)
  }

  /** Which rule each version runs: only fan changes the spectrum, only ratio
      returns a bare dimension, and an unknown version returns None. */
  lemma DimEstDispatch(p: Params, v: seq<real>)
    requires |v| >= 2
    ensures var run := DimEst(p, v);
      (p.ver != "fan" ==> run.spectrum == v) &&
      (p.ver == "ratio" <==> run.outcome.Ok? && run.outcome.value.Single?) &&
      (p.ver !in ["FO", "fan", "maxgap", "ratio"] <==> run.outcome == Ok(NoneReturned)) &&
      (p.ver in ["FO", "ratio"] ==> run.outcome.Ok?)
  {
    if p.ver == "fan" {
      var run := FanRule(v, p.alphaFan, p.betaFan, p.pFan);
      assert DimEst(p, v).outcome == AsPair(run.outcome);
    } else if p.ver == "maxgap" {
      assert DimEst(p, v).outcome == AsPair(MaxGap(v));
    }
  }

  /** On a spectrum with positive total, FO returns a dimension of at most d,
      and at least 1 when alphaFO < 1 (otherwise it may return 0). */
  lemma FODimEstBounds(p: Params, v: seq<real>)
    requires |v| >= 2 && IsSpectrum(v) && Sum(v) > 0.0 && p.ver == "FO"
    ensures var outcome := DimEst(p, v).outcome;
      outcome.Ok? && outcome.value.Pair? && outcome.value.estimate.dimension <= |v| &&
      (p.alphaFO < 1.0 ==> 1 <= outcome.value.estimate.dimension)
  {
    DimEstRunsRule(p, v);
    if p.alphaFO < 1.0 {
      LeadingEntryPositive(v);
      FOKeepsLargest(v, p.alphaFO);
    }
  }

  /** On a spectrum with positive total, maxgap does not raise and returns a
      dimension between 1 and d - 1. */
  lemma MaxGapDimEstBounds(p: Params, v: seq<real>)
    requires |v| >= 2 && IsSpectrum(v) && Sum(v) > 0.0 && p.ver == "maxgap"
    ensures var outcome := DimEst(p, v).outcome;
      outcome.Ok? && outcome.value.Pair? && 1 <= outcome.value.estimate.dimension < |v|
  {
    DimEstRunsRule(p, v);
    LeadingEntryPositive(v);
    MaxGapIsFirstLargestGap(v);
  }

  /** ratio returns a bare dimension between 1 and d. */
  lemma RatioDimEstBounds(p: Params, v: seq<real>)
    requires |v| >= 2 && p.ver == "ratio"
    ensures var outcome := DimEst(p, v).outcome;
      outcome.Ok? && outcome.value.Single? && 1 <= outcome.value.dimension <= |v|
  {
    DimEstRunsRule(p, v);
    RatioIsFirstCrossing(v, p.alphaRatio);
  }

  /** The rule each known version hands the spectrum to. */
  lemma DimEstRunsRule(p: Params, v: seq<real>)
    requires |v| >= 2
    ensures p.ver == "FO" ==> DimEst(p, v).outcome == Ok(Pair(FO(v, p.alphaFO)))
    ensures p.ver == "maxgap" ==> DimEst(p, v).outcome == AsPair(MaxGap(v))
    ensures p.ver == "ratio" ==> DimEst(p, v).outcome == Ok(Single(Ratio(v, p.alphaRatio)))
    ensures p.ver == "fan" ==> DimEst(p, v).outcome == AsPair(FanRule(v, p.alphaFan, p.betaFan, p.pFan).outcome)
  {
  }

  /** With version fan the dimension is at most d. On a spectrum with positive
      total, PFan < 1 and betaFan < 1, fan succeeds exactly when the spectrum
      is not flat, and then the dimension is at least 1. */
  lemma FanDimEstBounds(p: Params, v: seq<real>)
    requires |v| >= 2 && p.ver == "fan"
    ensures var outcome := DimEst(p, v).outcome;
      (outcome.Ok? ==> outcome.value.Pair? && outcome.value.estimate.dimension <= |v|) &&
      (IsSpectrum(v) && Sum(v) > 0.0 && p.pFan < 1.0 && p.betaFan < 1.0 ==>
        (outcome.Ok? <==> exists i :: 0 <= i < |v| && v[i] != v[0]) &&
        (outcome.Ok? ==> 1 <= outcome.value.estimate.dimension))
  {
    DimEstRunsRule(p, v);
    FanDimensionAtMostLength(v, p.alphaFan, p.betaFan, p.pFan);
    if IsSpectrum(v) && Sum(v) > 0.0 && p.pFan < 1.0 && p.betaFan < 1.0 {
      FanFailsOnlyOnFlatSpectrum(v, p.alphaFan, p.betaFan, p.pFan);
    }
  }

  /** fan's dimension never exceeds the number of eigenvalues. */
  lemma FanDimensionAtMostLength(v: seq<real>, alphaFan: real, betaFan: real, pFan: real)
    requires |v| >= 2
    ensures var outcome := FanRule(v, alphaFan, betaFan, pFan).outcome;
      outcome.Ok? ==> 1 <= outcome.value.dimension <= |v|
  {
  }

  /** The errors `fit` raises. */
  datatype FitError =
    | InvalidArray               // check_array: no samples or no features
    | NotFinite                  // check_array: an entry is NaN or infinite
    | OneSample                  // "Can't fit with 1 sample"
    | OneFeature                 // "Can't fit with n_features = 1"
    | RuleFailed(err: RuleError) // raised inside the chosen rule
    | CannotUnpack               // `de, gap = ...` on a bare number or None (TypeError)

  /** What a successful `fit` stores: the dimension, and the gap unless the
      version is ratio (None here: `gap_` is then left as it was). */
  datatype Fitted = Fitted(dimension: nat, gap: Option<Quotient>)

  /** The number of components PCA keeps by default. */
  function Components(nSamples: nat, nFeatures: nat): (k: nat)
    ensures k <= nSamples && k <= nFeatures && (k == nSamples || k == nFeatures)
  {
    if nSamples <= nFeatures then nSamples else nFeatures
  }

  /** `fit` as a function of its input. */
  function FitRule(p: Params, nSamples: nat, nFeatures: nat, allFinite: bool, spectrum: seq<real>)
    : Result<Fitted, FitError>
    requires |spectrum| == Components(nSamples, nFeatures)
  {
    if nSamples == 0 || nFeatures == 0 then Err(InvalidArray)
    else if !allFinite then Err(NotFinite)
    else if nSamples == 1 then Err(OneSample)
    else if nFeatures == 1 then Err(OneFeature)
    else Unpack(p.ver, DimEst(p, spectrum).outcome)
  }

  /** The assignments of lines 103-106: what `fit` stores from the value
      `_pcaLocalDimEst` returned, or the error that escapes. */
  function Unpack(ver: string, outcome: Result<Returned, RuleError>): Result<Fitted, FitError>
  {
    match outcome
    case Err(err) => Err(RuleFailed(err))
    case Ok(Single(d)) => if ver == "ratio" then Ok(Fitted(d, None)) else Err(CannotUnpack)
    case Ok(Pair(e)) => Ok(Fitted(e.dimension, Some(e.gap)))
    case Ok(NoneReturned) => Err(CannotUnpack)
  }

  /** `fit` rejects exactly the empty matrices, then a matrix with a NaN or
      infinite entry, then one with one sample or one feature. */
  lemma FitValidates(p: Params, nSamples: nat, nFeatures: nat, allFinite: bool, spectrum: seq<real>)
    requires |spectrum| == Components(nSamples, nFeatures)
    ensures (nSamples == 0 || nFeatures == 0) <==> FitRule(p, nSamples, nFeatures, allFinite, spectrum) == Err(InvalidArray)
    ensures nSamples >= 1 && nFeatures >= 1 && !allFinite ==> FitRule(p, nSamples, nFeatures, allFinite, spectrum) == Err(NotFinite)
    ensures nSamples == 1 && nFeatures >= 1 && allFinite ==> FitRule(p, nSamples, nFeatures, allFinite, spectrum) == Err(OneSample)
    ensures nSamples >= 2 && nFeatures == 1 && allFinite ==> FitRule(p, nSamples, nFeatures, allFinite, spectrum) == Err(OneFeature)
  {
    if nSamples >= 2 && nFeatures >= 2 && allFinite {
      assert FitRule(p, nSamples, nFeatures, allFinite, spectrum) == Unpack(p.ver, DimEst(p, spectrum).outcome);
      UnpackNeverInvalid(p.ver, DimEst(p, spectrum).outcome);
    }
  }

  /** The errors of validation are never the result of unpacking. */
  lemma UnpackNeverInvalid(ver: string, outcome: Result<Returned, RuleError>)
    ensures Unpack(ver, outcome) != Err(InvalidArray)
  {
  }

  /** On a valid matrix whose spectrum has positive total, `fit` unpacks what
      `_pcaLocalDimEst` returned and stores what `StoresAsSource` describes. */
  lemma FitStoresDimension(p: Params, nSamples: nat, nFeatures: nat, allFinite: bool, spectrum: seq<real>)
    requires |spectrum| == Components(nSamples, nFeatures)
    ensures nSamples >= 2 && nFeatures >= 2 && allFinite && IsSpectrum(spectrum) && Sum(spectrum) > 0.0 ==>
      FitRule(p, nSamples, nFeatures, allFinite, spectrum) == Unpack(p.ver, DimEst(p, spectrum).outcome) &&
      StoresAsSource(p, spectrum, FitRule(p, nSamples, nFeatures, allFinite, spectrum))
  {
    if nSamples >= 2 && nFeatures >= 2 && allFinite && IsSpectrum(spectrum) && Sum(spectrum) > 0.0 {
      assert FitRule(p, nSamples, nFeatures, allFinite, spectrum) == Unpack(p.ver, DimEst(p, spectrum).outcome);
      FitOnValidSpectrum(p, spectrum);
    }
  }

  /** What `fit` stores from a spectrum with positive total, version by
      version. FO, maxgap and ratio always succeed; only ratio stores no gap.
      fan stores a dimension and a gap when it returns, and under PFan < 1 and
      betaFan < 1 it returns exactly on a non-flat spectrum. Any other version
      fails to unpack `None`, and no known version does. */
  ghost predicate StoresAsSource(p: Params, v: seq<real>, r: Result<Fitted, FitError>)
    requires |v| >= 1
  {
    (p.ver == "FO" ==>
      r.Ok? && r.value.gap.Some? && r.value.dimension <= |v| && (p.alphaFO < 1.0 ==> 1 <= r.value.dimension)) &&
    (p.ver == "maxgap" ==> r.Ok? && r.value.gap.Some? && 1 <= r.value.dimension <= |v|) &&
    (p.ver == "ratio" ==> r.Ok? && r.value.gap.None? && 1 <= r.value.dimension <= |v|) &&
    (p.ver == "fan" ==>
      r != Err(CannotUnpack) && (r.Ok? ==> r.value.gap.Some? && 1 <= r.value.dimension <= |v|) &&
      (p.pFan < 1.0 && p.betaFan < 1.0 ==> (r.Ok? <==> exists i :: 0 <= i < |v| && v[i] != v[0]))) &&
    (p.ver !in ["FO", "fan", "maxgap", "ratio"] ==> r == Err(CannotUnpack))
  }

  /** `fit` on a spectrum with positive total stores what the source does. */
  lemma FitOnValidSpectrum(p: Params, v: seq<real>)
    requires |v| >= 2 && IsSpectrum(v) && Sum(v) > 0.0
    ensures StoresAsSource(p, v, Unpack(p.ver, DimEst(p, v).outcome))
  {
    if p.ver == "fan" {
      FitWithFan(p, v);
    } else if p.ver == "FO" {
      FitWithPair(p, v);
    } else if p.ver == "maxgap" {
      FitWithPair(p, v);
    } else if p.ver == "ratio" {
      RatioDimEstBounds(p, v);
      var d := DimEst(p, v).outcome.value.dimension;
      assert Unpack(p.ver, DimEst(p, v).outcome) == Ok(Fitted(d, None));
    } else {
      DimEstDispatch(p, v);
      assert Unpack(p.ver, DimEst(p, v).outcome) == Err(CannotUnpack);
    }
  }

  /** FO and maxgap store their dimension and gap. */
  lemma FitWithPair(p: Params, v: seq<real>)
    requires |v| >= 2 && IsSpectrum(v) && Sum(v) > 0.0 && (p.ver == "FO" || p.ver == "maxgap")
    ensures var r := Unpack(p.ver, DimEst(p, v).outcome);
      r.Ok? && r.value.gap.Some? && r.value.dimension <= |v| &&
      (p.ver == "maxgap" || p.alphaFO < 1.0 ==> 1 <= r.value.dimension)
  {
    if p.ver == "FO" {
      FODimEstBounds(p, v);
    } else {
      MaxGapDimEstBounds(p, v);
    }
    var e := DimEst(p, v).outcome.value.estimate;
    assert Unpack(p.ver, DimEst(p, v).outcome) == Ok(Fitted(e.dimension, Some(e.gap)));
  }

  /** fan stores its dimension and gap when it returns; otherwise its error
      escapes `fit`. */
  lemma FitWithFan(p: Params, v: seq<real>)
    requires |v| >= 2 && IsSpectrum(v) && Sum(v) > 0.0 && p.ver == "fan"
    ensures var r := Unpack(p.ver, DimEst(p, v).outcome);
      r != Err(CannotUnpack) &&
      (r.Ok? ==> r.value.gap.Some? && 1 <= r.value.dimension <= |v|) &&
      (p.pFan < 1.0 && p.betaFan < 1.0 ==> (r.Ok? <==> exists i :: 0 <= i < |v| && v[i] != v[0]))
  {
    FanDimEstBounds(p, v);
    var outcome := DimEst(p, v).outcome;
    if outcome.Ok? {
      var e := outcome.value.estimate;
      assert Unpack(p.ver, outcome) == Ok(Fitted(e.dimension, Some(e.gap)));
      FanDimensionAtMostLength(v, p.alphaFan, p.betaFan, p.pFan);
      DimEstRunsRule(p, v);
    } else {
      assert Unpack(p.ver, outcome) == Err(RuleFailed(outcome.error));
    }
  }

  /** The estimator object: its parameters, and the attributes `fit` sets. */
  class LPCA {
    var ver: string
    var alphaRatio: real
    var alphaFO: real
    var alphaFan: real
    var betaFan: real
    var pFan: real
    var dimension: Option<nat>   // dimension_, once set
    var gap: Option<Quotient>    // gap_, once set
    var isFitted: bool           // is_fitted_

    /** The defaults are those of `lPCA.__init__`. */
    constructor (ver: string := "FO", alphaRatio: real := 0.05, alphaFO: real := 0.05,
                 alphaFan: real := 10.0, betaFan: real := 0.8, pFan: real := 0.95)
      ensures Settings() == Params(ver, alphaRatio, alphaFO, alphaFan, betaFan, pFan)
      ensures dimension.None? && gap.None? && !isFitted
    {
      this.ver := ver;
      this.alphaRatio := alphaRatio;
      this.alphaFO := alphaFO;
      this.alphaFan := alphaFan;
      this.betaFan := betaFan;
      this.pFan := pFan;
      dimension := None;
      gap := None;
      isFitted := false;
    }

    function Settings(): Params
      reads this
    {
      Params(ver, alphaRatio, alphaFO, alphaFan, betaFan, pFan)
    }

    /** `_pcaLocalDimEst` on the explained-variance array `ev`. */
    method PcaLocalDimEst(ev: array<real>) returns (outcome: Result<Returned, RuleError>)
      requires ev.Length >= 2
      modifies ev
      ensures DimEstRun(outcome, ev[..]) == DimEst(Settings(), old(ev[..]))
    {
      var v := ev[..];
      if ver == "FO" {
        outcome := Ok(Pair(FO(v, alphaFO)));
      } else if ver == "fan" {
        var r := Fan(ev, alphaFan, betaFan, pFan);
        outcome := AsPair(r);
      } else if ver == "maxgap" {
        outcome := AsPair(MaxGap(v));
      } else if ver == "ratio" {
        outcome := Ok(Single(Ratio(v, alphaRatio)));
      } else {
        outcome := Ok(NoneReturned);
      }
    }

    /** `fit`: validates the matrix, runs the chosen rule on a fresh copy of
        the explained variances, and stores the result. On an error nothing
        is stored. */
    method Fit(nSamples: nat, nFeatures: nat, allFinite: bool, spectrum: seq<real>)
      returns (outcome: Result<(), FitError>)
      requires |spectrum| == Components(nSamples, nFeatures)
      modifies this`dimension, this`gap, this`isFitted
      ensures var r := FitRule(Settings(), nSamples, nFeatures, allFinite, spectrum);
        match r
        case Ok(f) =>
          outcome == Ok(()) && dimension == Some(f.dimension) && isFitted &&
          gap == (if f.gap.Some? then f.gap else old(gap))
        case Err(e) =>
          outcome == Err(e) && dimension == old(dimension) && gap == old(gap) &&
          isFitted == old(isFitted)
    {
      if nSamples == 0 || nFeatures == 0 {
        return Err(InvalidArray);
      }
      if !allFinite {
        return Err(NotFinite);
      }
      if nSamples == 1 {
        return Err(OneSample);
      }
      if nFeatures == 1 {
        return Err(OneFeature);
      }
      var ev := new real[|spectrum|](i requires 0 <= i < |spectrum| => spectrum[i]);
      assert ev[..] == spectrum;
      var returned := PcaLocalDimEst(ev);
      match returned {
        case Err(err) =>
          return Err(RuleFailed(err));
        case Ok(Single(d)) =>
          if ver != "ratio" {
            return Err(CannotUnpack);
          }
          dimension := Some(d);
        case Ok(Pair(e)) =>
          dimension, gap := Some(e.dimension), Some(e.gap);
        case Ok(NoneReturned) =>
          return Err(CannotUnpack);
      }
      isFitted := true;
      outcome := Ok(());
    }
  }
}
