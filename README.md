# lPCA dimension selection, modelled in Dafny

`skdim.lid.lPCA` estimates the intrinsic dimension of one local neighbourhood
of a data set. PCA turns the neighbourhood into its explained-variance spectrum
`v` (one value per component, non-increasing and non-negative). One of four
rules, chosen by `ver`, then reads a dimension off that spectrum:

- **FO** (Fukunaga–Olsen) counts the eigenvalues strictly above `alphaFO * v[0]`.
- **maxgap** returns one past the first position of the largest ratio
  `v[i] / v[i+1]`. The ratios come from elementwise division, and
  `nanargmax` picks the position, skipping NaN ratios.
- **ratio** returns the first 1-based prefix whose raw cumulative sum exceeds
  `alphaRatio`, or `d` when none does.
- **fan** (Fan et al.) has three steps:
  - It finds the start `r` of the noise tail: the first index whose cumulative
    share of the total exceeds `PFan`.
  - It subtracts the tail mean from the spectrum array in place.
  - It returns one past the first index that passes either test on the shifted
    values: the gap is above `alphaFan`, or the cumulative share is above
    `betaFan`.

FO, maxgap and fan also return a "gap". It is `gaps[de-1]` when that index
exists, otherwise Python's `gaps[-1]`. `fit` validates the sample matrix, runs
the chosen rule, and stores `dimension_`, `gap_` (for every version but ratio)
and `is_fitted_`.

The project has five modules:

- `Wrappers` (`wrappers.dfy`) holds `Option` and `Result`. They stand for
  Python's `None` and for raised exceptions.
- `Spectra` (`spectra.dfy`) holds the vector operations the rules are written
  in: sums, cumulative sums and shares, elementwise shifts and comparisons, and
  the numpy reductions over booleans. Those reductions are `sum(mask)`,
  `np.where`, `min`/`[0]` of its result, `np.concatenate` and `nanargmax`.
  It also holds the gap vector and the clamped gap lookup.
- `Rules` (`rules.dfy`) holds the four rules.
  - FO, maxgap and ratio are functions over `seq<real>`.
  - fan is a method on `array<real>`. Its pure counterpart `FanRule` gives both
    the outcome and the array contents afterwards.
  - The lemmas state what each rule returns and when it raises.
- `LocalPca` (`lpca.dfy`) holds the rest of the estimator:
  - `DimEst` is the `ver` dispatch of `_pcaLocalDimEst`.
  - `FitRule` is `fit` as a function.
  - The class `LPCA` has the estimator's fields and the methods
    `PcaLocalDimEst` and `Fit`, which are proved equal to those functions.
- `Cases` (`cases.dfy`) works the spectrum `[10, 9, 1, 0.9, 0.1]` through the
  rules, using the general lemmas.

Numbers are exact reals. A division `a / b` is modelled as the outcome an
IEEE-754 division of two finite numbers has: a finite quotient, `+inf`, `-inf`
or NaN (`Spectra.Quotient`, `Spectra.Div`). Comparisons with NaN are false, as
in IEEE. This matters because the rules really do divide by zero:

- fan's shifted spectrum always has an entry at or below zero.
- A zero eigenvalue after a positive one makes a `+inf` gap, which `nanargmax`
  picks (`Cases.MaxGapOnTrailingZero`). Two zero eigenvalues make a NaN gap
  (`0/0`), which `nanargmax` skips (`Cases.MaxGapOnTwoZeros`).

Rounding is not modelled. The rules do not demand a sorted spectrum, so they
have no such precondition. The lemmas assume `IsSpectrum` (non-increasing,
non-negative), which is what PCA guarantees. Spectra of length at least 2 are
required, because `fit` rejects one sample or one feature, and PCA returns
`min(n_samples, n_features)` values.

Four consequences of the code are easy to miss:

- **FO is not clamped.** With `alphaFO >= 1` nothing exceeds the threshold, so
  FO returns `de = 0`, not 1, and reports the last gap
  (`Rules.FOZeroAtAlphaOne`). On an all-zero spectrum it also returns 0
  (`Rules.ZeroSpectrumOutcomes`).
- **`_fan` mutates its argument.** It subtracts the noise level from the
  explained-variance array it is given (`Rules.Fan`, `Rules.ShiftInPlace`).
  Calling `_fan` twice on the same array therefore shifts it twice. Inside
  `fit` the array belongs to a fresh PCA object, so the change is not visible
  outside.
- **`betaFan = 1` does not make the share test unreachable.** Cumulative shares
  of the shifted spectrum can exceed 1, because its tail holds negative
  entries. On `[10, 9, 1, 0.9, 0.1]` with an unreachable `alphaFan`, fan
  still returns 3 (`Cases.FanOnSampleWithUnitBeta`). When `PFan < 1` and
  `betaFan < 1`, fan raises exactly on a flat spectrum
  (`Rules.FanFailsOnlyOnFlatSpectrum`).
- **The spectrum has `min(n_samples, n_features)` entries,** not one per
  feature (`LocalPca.Components`).

## Model

| member | source | states |
|---|---|---|
| Spectra.Div | skdim/lid/_PCA.py:127 | IEEE division of finite values without rounding. The quotient is finite exactly when the divisor is non-zero, and then it times the divisor gives the dividend. It is NaN exactly for `0/0`. It exceeds 0 exactly for a positive dividend over zero (`+inf`) or for operands of the same non-zero sign. |
| Spectra.Exceeds | skdim/lid/_PCA.py:156-162 | The IEEE comparison `q > t` used on quotients. It is false on NaN, where `q <= t` is false too. On any other quotient it is exactly the negation of `Spectra.AtMost`. |
| Spectra.AtMost | skdim/lid/_PCA.py:137 | The IEEE comparison `a <= b`, as `nanargmax` orders its entries. It holds only when neither side is NaN. On two finite values it is `<=` on reals. A quotient is at most itself exactly when it is not NaN. |
| Spectra.Sum | skdim/lid/_PCA.py:156 | `sum(s)`, accumulated left to right. It has no contract of its own; `Spectra.SumSplit`, `Spectra.SumAtMost` and `Spectra.SumAtLeast` state its properties. |
| Spectra.SumSplit | skdim/lid/_PCA.py:156 | The total of a sequence is the total of any prefix plus the total of the rest. |
| Spectra.SumAtLeast | skdim/lid/_PCA.py:156 | With every entry at least `c`, the total is at least `d * c`. |
| Spectra.CumSum | skdim/lid/_PCA.py:147 | `np.cumsum(s)`, defined as the prefix sums `s[0..i]`. Its contract states only the length; `Spectra.CumSumSteps` states the running-total recurrence. |
| Spectra.CumSumSteps | skdim/lid/_PCA.py:147 | numpy's running total: the first cumulative sum is `s[0]`, and each later one is the previous plus the next entry. |
| Spectra.Mean | skdim/lid/_PCA.py:158 | `np.mean(s)`: the value whose `d`-fold multiple is the total. |
| Spectra.CumulativeShares | skdim/lid/_PCA.py:156 | `np.cumsum(s) / sum(s)`, defined entry by entry as the IEEE quotient of the `i`-th cumulative sum by the total. Its contract states only the length; `Spectra.FullShareIsOne` and `Rules.ZeroSharesAreNaN` state its properties. |
| Spectra.CountTrue | skdim/lid/_PCA.py:126 | `sum(mask)` on a boolean mask is at most its length. It is 0 exactly when no entry is true, and the full length exactly when every entry is. |
| Spectra.Above | skdim/lid/_PCA.py:126 | The elementwise `explained_var > alphaFO * explained_var[0]` of line 126, and `np.cumsum(...) > alphaRatio` in line 148. The mask is defined entry by entry, and its contract states its length. `Rules.FOCountsLeadingEigenvalues` and `Rules.RatioIsFirstCrossing` state what the rules read off it. |
| Spectra.QuotientsAbove | skdim/lid/_PCA.py:156-162 | The elementwise `>` on quotients in lines 156, 161 and 162, defined entry by entry through `Spectra.Exceeds`. Its contract states its length. `Spectra.WhereOfQuotientsAbove` and `Rules.FanTestIsEitherMask` state what `np.where` reads off it. |
| Spectra.Min | skdim/lid/_PCA.py:152 | `idx.min()` of a non-empty index list is one of its entries and is at most every entry. |
| Spectra.ArgMax | skdim/lid/_PCA.py:137 | `np.argmax` of a NaN-free list is in range, no entry exceeds the entry there, and every earlier entry is strictly smaller. |
| Spectra.PyIndex | skdim/lid/_PCA.py:129-132 | Python's `s[i]` for `-d <= i < d` is `s[(i + d) mod d]`, so negative indices count from the end. |
| Spectra.FirstExceeding | skdim/lid/_PCA.py:156-157 | `np.where(q > t)[0][0]` is the first position whose quotient exceeds `t`. It is `None` (the index fails) exactly when no quotient exceeds `t`. |
| Spectra.CountTrueOfPrefix | skdim/lid/_PCA.py:126 | When a mask's true entries come first, `sum(mask)` is the length of its leading run of trues. |
| Spectra.Where | skdim/lid/_PCA.py:148 | `np.where(mask)[0]` lists only in-range positions that are true, lists every true position, and is strictly increasing. |
| Spectra.WhereFindsFirst | skdim/lid/_PCA.py:148-152 | `min` and `[0]` of `np.where(mask)[0]` are both the first true position. The result is empty exactly when the mask is all false. |
| Spectra.WhereUnionFindsFirst | skdim/lid/_PCA.py:161-162 | The `min` of two concatenated `np.where` results is the first position either mask reports. It does not exist exactly when neither mask reports any. |
| Spectra.FirstOfEither | skdim/lid/_PCA.py:161-162 | That minimum, as an option: `Some(k)` with `k` reported by one of the masks and no earlier position reported, or `None` exactly when no position is reported. |
| Spectra.MinOfConcat | skdim/lid/_PCA.py:161 | The minimum of a concatenation is the smaller of the two minima. |
| Spectra.NanArgMax | skdim/lid/_PCA.py:137 | `nanargmax` returns `None` (raises) exactly when every entry is NaN, and otherwise returns an index in range. |
| Spectra.NanToNegInf | skdim/lid/_PCA.py:137 | How `nanargmax` reads an entry: the result is never NaN, and it differs from the entry only by turning NaN into `-inf`. |
| Spectra.NanArgMaxIsFirstLargest | skdim/lid/_PCA.py:137 | With some non-NaN entry and no `-inf`, `nanargmax` lands on a non-NaN entry. No other entry exceeds it, and every earlier entry is strictly smaller. |
| Spectra.Gaps | skdim/lid/_PCA.py:127 | `v[:-1] / v[1:]` has `d - 1` entries. |
| Spectra.Shifted | skdim/lid/_PCA.py:159 | `explained_var - sigma`, the values line 159 writes into the array. It is defined entry by entry, and its contract states its length. `Spectra.SumOfShifted`, `Rules.ShiftKeepsOrder` and `Rules.ShiftInPlace` state its properties. |
| Spectra.GapAt | skdim/lid/_PCA.py:129-132 | The clamped lookup returns `gaps[de-1]` when `1 <= de <= len(gaps)`. When `de = 0` (through Python's `gaps[-1]`) or `de > len(gaps)`, it returns the last gap. |
| Spectra.GapsOfSpectrum | skdim/lid/_PCA.py:127 | On a spectrum no gap is `-inf`, and gap `i` is NaN exactly when `v[i] = 0`. |
| Spectra.GapsOfPositiveSpectrum | skdim/lid/_PCA.py:127 | On a strictly positive spectrum every gap is finite and at least 1. |
| Spectra.SumOfShifted | skdim/lid/_PCA.py:159 | Subtracting `sigma` from each of `d` entries lowers the total by `d * sigma`. |
| Spectra.SumAtMost | skdim/lid/_PCA.py:158 | With every entry at most `c`, the total is at most `d * c`. It equals `d * c` only when every entry is `c`. |
| Spectra.MeanAtMost | skdim/lid/_PCA.py:158 | With every entry at most `c`, `np.mean` is at most `c`, and it equals `c` only when every entry does. |
| Spectra.MeanAtLeast | skdim/lid/_PCA.py:158 | With every entry at least `c`, `np.mean` is at least `c`. |
| Spectra.PrefixSumsGrow | skdim/lid/_PCA.py:147 | On non-negative entries a longer prefix never has a smaller sum. |
| Spectra.FullShareIsOne | skdim/lid/_PCA.py:156-157 | With a positive total, the last cumulative share is exactly 1. |
| Spectra.LeadingEntryPositive | skdim/lid/_PCA.py:126 | A spectrum with a positive total has `v[0] > 0`. |
| Rules.FO | skdim/lid/_PCA.py:125-132 | `_FO`: `de` is the number of eigenvalues above `alphaFO * v[0]`, with the gap beside it. Its properties are stated by `Rules.FOCountsLeadingEigenvalues`, `Rules.FOKeepsLargest` and `Rules.FOZeroAtAlphaOne`. |
| Rules.FOCountsLeadingEigenvalues | skdim/lid/_PCA.py:126 | FO's `de` is at most `d`. The eigenvalues counted are exactly the prefix `v[0..de)` above `alphaFO * v[0]`. Every later one, including one equal to the threshold, is at or below it. |
| Rules.FOKeepsLargest | skdim/lid/_PCA.py:126 | With `v[0] > 0` and `alphaFO < 1`, `1 <= de <= d`. |
| Rules.FOZeroAtAlphaOne | skdim/lid/_PCA.py:126-132 | With `alphaFO >= 1`, FO returns `de = 0` without clamping, and it reports the last gap `gaps[d-2]`. |
| Rules.MaxGap | skdim/lid/_PCA.py:135-142 | `_maxgap`: one past `nanargmax` of the gaps, with the gap beside it. The error `AllGapsNaN` stands for `nanargmax`'s ValueError. Its properties are stated by `Rules.MaxGapIsFirstLargestGap`. |
| Rules.MaxGapIsFirstLargestGap | skdim/lid/_PCA.py:136-142 | maxgap raises exactly on a spectrum with `v[0] = 0` (all gaps NaN). Otherwise `1 <= de <= d-1` and the reported gap is `gaps[de-1]` (the clamping branch is never taken). That gap is not NaN, no gap exceeds it, and every earlier gap is strictly smaller. |
| Rules.Ratio | skdim/lid/_PCA.py:144-153 | `_ratio`: one past the least index whose cumulative sum exceeds `alphaRatio`, or `d` when there is none. Its properties are stated by `Rules.RatioIsFirstCrossing` and `Rules.RatioThresholdIsMonotone`. |
| Rules.RatioIsFirstCrossing | skdim/lid/_PCA.py:147-153 | ratio returns `1 <= de <= d`. Every raw cumulative sum before `de-1` is at most `alphaRatio`. The sum at `de-1` exceeds it whenever any cumulative sum does. When none does, `de = d`. |
| Rules.RatioThresholdIsMonotone | skdim/lid/_PCA.py:147-152 | On a spectrum where some cumulative sum exceeds `alphaRatio`, `cumsum[i] > alphaRatio` holds exactly when `de <= i + 1`. |
| Rules.NoiseTailStart | skdim/lid/_PCA.py:156-157 | `r` is in range and is the first index whose cumulative share exceeds `PFan`. It is `None` (the `[0][0]` access fails) exactly when no share exceeds `PFan`. |
| Rules.NoiseTailExists | skdim/lid/_PCA.py:156-157 | With a positive total and `PFan < 1`, the noise tail exists. |
| Rules.FanRule | skdim/lid/_PCA.py:155-166 | `_fan` as a function of the spectrum before the call. It gives the outcome (`NoNoiseTail` for the `[0][0]` IndexError, `NoCutoff` for `np.min` of an empty array) and the array contents afterwards. `Rules.Fan` is proved equal to it. |
| Rules.ShiftInPlace | skdim/lid/_PCA.py:159 | After `explained_var -= sigma`, each entry of the array is its old value minus `sigma`. |
| Rules.Fan | skdim/lid/_PCA.py:155-166 | fan on the spectrum array returns what `FanRule` gives for the array's old contents, and leaves the array holding `FanRule`'s shifted spectrum. |
| Rules.FanShiftCentresTail | skdim/lid/_PCA.py:158-159 | After fan, the array is `v - mean(v[r:])`, its noise tail sums to zero, and a non-increasing spectrum stays non-increasing. |
| Rules.FanRuleShifts | skdim/lid/_PCA.py:157-159 | Once the noise tail is found, the array afterwards is `v - mean(v[r:])`, whether or not a cutoff exists. |
| Rules.ShiftKeepsOrder | skdim/lid/_PCA.py:159 | Subtracting a constant keeps a non-increasing spectrum non-increasing. |
| Rules.TailSumsToZero | skdim/lid/_PCA.py:158-159 | Subtracting the tail mean leaves the tail summing to zero. |
| Rules.TailMeanBounds | skdim/lid/_PCA.py:158 | The tail mean is at most `v[r]`. It reaches `v[0]` only when the spectrum is flat. |
| Rules.ShiftedTotalNonNegative | skdim/lid/_PCA.py:158-162 | The shifted spectrum's total is never negative. |
| Rules.FanTestIsEitherMask | skdim/lid/_PCA.py:161-162 | The two masks fan hands to `np.where` report index `i` exactly when `i` passes the gap test or the share test. |
| Rules.PassesFanTest | skdim/lid/_PCA.py:161-162 | fan's stopping test at index `i`: the gap test of line 161 or the share test of line 162. The gap test applies only where a gap exists. It has no contract of its own; `Rules.FanTestIsEitherMask` ties it to the two masks. |
| Rules.FanCutoff | skdim/lid/_PCA.py:161-162 | fan's `de` is `1 + i` for the first index `i` that passes either test, so `1 <= de <= d`. It is `None` (`np.min` of an empty array) exactly when no index passes. |
| Rules.ZeroSpectrumHasNoCutoff | skdim/lid/_PCA.py:161-162 | On an all-zero shifted spectrum every gap and share is NaN, so fan raises. |
| Rules.CutoffExists | skdim/lid/_PCA.py:161-162 | With a positive first entry, a non-negative total and `betaFan < 1`, some index passes. |
| Rules.FanFailsOnFlatSpectrum | skdim/lid/_PCA.py:155-166 | On a flat spectrum with a positive total and `PFan < 1`, fan raises the no-cutoff error. |
| Rules.FlatShiftIsZero | skdim/lid/_PCA.py:158-159 | On a flat spectrum the shift leaves only zeros. |
| Rules.FanSucceedsOnNonFlatSpectrum | skdim/lid/_PCA.py:155-166 | On a non-flat spectrum with a positive total, `PFan < 1` and `betaFan < 1`, fan returns `1 <= de <= d`. |
| Rules.FanFailsOnlyOnFlatSpectrum | skdim/lid/_PCA.py:155-166 | On a spectrum with a positive total, `PFan < 1` and `betaFan < 1`, fan raises exactly when every eigenvalue is equal, and then the error is the no-cutoff one. Otherwise `1 <= de <= d`. |
| Rules.ZeroSharesAreNaN | skdim/lid/_PCA.py:156 | On an all-zero sequence the total and every cumulative sum are 0, so every share is NaN. |
| Rules.ZeroSpectrumOutcomes | skdim/lid/_PCA.py:125-166 | On the all-zero spectrum, FO returns 0 and maxgap raises `AllGapsNaN`. ratio returns `d`, or 1 when `alphaRatio < 0`. fan raises `NoNoiseTail` and leaves the array unchanged. |
| LocalPca.DimEst | skdim/lid/_PCA.py:112-123 | `_pcaLocalDimEst` on the spectrum: the result of the rule `ver` names, or `None` for any other `ver`, with the spectrum array afterwards. Its properties are stated by `LocalPca.DimEstDispatch` and the bounds lemmas below. |
| LocalPca.DimEstDispatch | skdim/lid/_PCA.py:116-123 | Only fan changes the spectrum, and only ratio returns a bare dimension. An unknown `ver` returns `None`, exactly. FO and ratio never raise. |
| LocalPca.FODimEstBounds | skdim/lid/_PCA.py:116-117 | On a spectrum with a positive total, FO returns a pair with `de <= d`, and `de >= 1` when `alphaFO < 1`. |
| LocalPca.MaxGapDimEstBounds | skdim/lid/_PCA.py:120-121 | On a spectrum with a positive total, maxgap returns a pair with `1 <= de <= d-1`. |
| LocalPca.RatioDimEstBounds | skdim/lid/_PCA.py:122-123 | ratio returns a bare `de` with `1 <= de <= d`. |
| LocalPca.FanDimEstBounds | skdim/lid/_PCA.py:118-119 | fan returns a pair with `de <= d`. On a spectrum with a positive total, `PFan < 1` and `betaFan < 1`, it succeeds exactly when the spectrum is not flat, and then `de >= 1`. |
| LocalPca.FanDimensionAtMostLength | skdim/lid/_PCA.py:161-166 | fan's dimension is between 1 and `d` whenever it returns one. |
| LocalPca.Components | skdim/lid/_PCA.py:113 | PCA keeps `min(n_samples, n_features)` components. |
| LocalPca.FitRule | skdim/lid/_PCA.py:83-110 | `fit` as a function of the matrix's shape, its finiteness and the PCA spectrum. It gives the error raised, or the dimension and gap stored. Its properties are stated by `LocalPca.FitValidates`, `LocalPca.FitStoresDimension` and `LocalPca.Unpack`'s lemmas, and `LocalPca.LPCA.Fit` is proved equal to it. |
| LocalPca.Unpack | skdim/lid/_PCA.py:103-106 | The assignments of `dimension_` and `gap_` from what `_pcaLocalDimEst` returned. Its properties are stated by `LocalPca.FitOnValidSpectrum`. |
| LocalPca.UnpackNeverInvalid | skdim/lid/_PCA.py:96-106 | Unpacking never yields the empty-matrix error, which only validation raises. |
| LocalPca.FitValidates | skdim/lid/_PCA.py:96-100 | `fit` rejects exactly the empty matrices. It then rejects a non-empty matrix with a NaN or infinite entry (in `check_array`, before the shape tests), then one sample, then one feature. |
| LocalPca.FitStoresDimension | skdim/lid/_PCA.py:96-108 | On a valid finite matrix whose spectrum has a positive total, `fit` unpacks what `_pcaLocalDimEst` returned. Version by version it stores what `StoresAsSource` lists. FO, maxgap and ratio always succeed. Only ratio stores no gap. `de` is at most the spectrum's length, and `de >= 1` unless FO has `alphaFO >= 1`. fan stores a dimension and a gap when it returns, and with `PFan < 1` and `betaFan < 1` it returns exactly on a non-flat spectrum. An unknown `ver` fails to unpack `None`, and no known one does. |
| LocalPca.FitOnValidSpectrum | skdim/lid/_PCA.py:103-123 | The same per-version outcomes, stated for unpacking the dispatch's result on a spectrum with a positive total. |
| LocalPca.FitWithPair | skdim/lid/_PCA.py:106-121 | FO and maxgap store a dimension and a gap: `de <= d`, and `de >= 1` for maxgap and for FO with `alphaFO < 1`. |
| LocalPca.FitWithFan | skdim/lid/_PCA.py:106-119 | fan's error escapes `fit` as itself, never as an unpacking error. When fan returns, `fit` stores `1 <= de <= d` and a gap. Under `PFan < 1`, `betaFan < 1` it returns exactly on a non-flat spectrum. |
| LocalPca.LPCA.constructor | skdim/lid/_PCA.py:72-81 | The estimator holds the given parameters, defaulting as `__init__` does (`ver='FO'`, `alphaRatio=0.05`, `alphaFO=0.05`, `alphaFan=10`, `betaFan=0.8`, `PFan=0.95`). It has no fitted attributes yet. |
| LocalPca.LPCA.PcaLocalDimEst | skdim/lid/_PCA.py:112-123 | `_pcaLocalDimEst` on the explained-variance array returns `DimEst`'s result for the old contents, and leaves the array as `DimEst` says. |
| LocalPca.LPCA.Fit | skdim/lid/_PCA.py:83-110 | On success `fit` sets `dimension_` and `is_fitted_`. It sets `gap_` too, except that ratio leaves `gap_` as it was. On any error it changes nothing. The outcome and the stored values are those of `FitRule`. |
| Cases.FOOnSample | skdim/lid/_PCA.py:125-132 | FO with `alphaFO = 0.05` on `[10, 9, 1, 0.9, 0.1]` returns `(4, 9)`. |
| Cases.MaxGapOnSample | skdim/lid/_PCA.py:135-142 | maxgap on the same spectrum returns `(2, 9)`: the first of two equal largest gaps wins. |
| Cases.MaxGapOnTrailingZero | skdim/lid/_PCA.py:135-142 | On `[3, 1, 0]` the last gap is `1/0 = +inf`, not NaN, and maxgap returns `(2, +inf)`. |
| Cases.MaxGapOnTwoZeros | skdim/lid/_PCA.py:135-142 | On `[3, 0, 0]` the gaps are `+inf` and NaN (`0/0`). `nanargmax` skips the NaN, and maxgap returns `(1, +inf)`. |
| Cases.GapsOfSample | skdim/lid/_PCA.py:136 | The sample's gaps are `10/9, 9, 10/9, 9`. |
| Cases.RatioOnSample | skdim/lid/_PCA.py:144-153 | ratio with `alphaRatio = 0.05` returns 1, because the raw first eigenvalue already exceeds 0.05. |
| Cases.NoiseTailOfSample | skdim/lid/_PCA.py:156-157 | With `PFan = 0.95` the noise tail of the sample starts at index 2. |
| Cases.NoiseLevelOfSample | skdim/lid/_PCA.py:158 | Its noise level is 2/3. |
| Cases.SharesOfShiftedSample | skdim/lid/_PCA.py:162 | The shifted sample's first cumulative shares are 28/53, 1 and 54/53. |
| Cases.GapsOfShiftedSample | skdim/lid/_PCA.py:160 | The shifted sample's first gaps are 28/25 and 25. |
| Cases.CutoffOfShiftedSample | skdim/lid/_PCA.py:161-162 | With `alphaFan = 1e9` and `betaFan = 1`, the cutoff is 3 (the share 54/53 passes). |
| Cases.FanOnSampleWithUnitBeta | skdim/lid/_PCA.py:155-166 | fan with `PFan = 0.95`, `alphaFan = 1e9` and `betaFan = 1` returns dimension 3 rather than raising. |

## Left out

- The PCA fit and the reading of `explained_variance_` (lines 113-114) are
  outside the model. `fit` receives the spectrum PCA would produce, and the
  lemmas about it assume what PCA guarantees: non-increasing, non-negative,
  `min(n_samples, n_features)` values.
- `check_array` (line 96) is a library call. It is modelled by its two
  rejections: an empty matrix (`InvalidArray`) and a matrix with a NaN or
  infinite entry (`NotFinite`). The model's input is a dense two-dimensional
  matrix, so `check_array`'s other rejections do not arise: the TypeError
  for sparse input that `accept_sparse=False` gives, and the ValueError for
  1-D or 3-D input. Both rejections come before the tests of lines 97-100.
  The test of line 101 is therefore never reached, and the model has no
  separate error for it. Both are `ValueError`.
- Floating-point rounding, signed zero and overflow are not modelled. Numbers
  are exact reals, and only the outcome class of each division (finite, ±inf,
  NaN) follows IEEE.
- Two of fan's branches depend on rounding in the source. When the noise tail
  starts at index 0 (one dominant eigenvalue), the shifted total is exactly
  zero in reals. The model then reads the first share as `+inf` and returns
  `de = 1`. In floating point that total is a rounding residue of either
  sign, and a negative one can move the cutoff. The flat spectrum's exactly
  zero shifted entries are likewise a rounding question in the source.
- The `verbose` flag, the `y` argument and the `BaseEstimator` plumbing
  (`get_params`, `set_params`, returning `self`) have no bearing on the
  estimate and are left out.
- The commented-out KMeans pointwise estimator after line 169 is not part of
  this model. It is dead code.
- The type of `dimension_` is idealised. Python would assign whatever
  `_pcaLocalDimEst` returns. The model stores a number and raises the
  unpacking error (`CannotUnpack`) when a non-ratio version returns a bare
  number or `None`.
