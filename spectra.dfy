/**
 * The vector operations the dimension-selection rules of lPCA are written in:
 * elementwise division of two spectra, cumulative sums, boolean masks and the
 * numpy reductions over them (`np.where`, `min`, `nanargmax`, summing a mask).
 *
 * Numbers are exact reals. Each division is therefore the outcome an IEEE-754
 * division of two finite numbers would have, rounding aside: a finite quotient,
 * an infinity, or NaN.
 */
module Spectra {
  import opened Wrappers

  /** The value of `a / b` for finite floats `a` and `b`. */
  datatype Quotient = Finite(val: real) | PosInf | NegInf | NaN

  /** IEEE division of finite values; a zero divisor is +0, the only zero
      that exact sums and differences of reals produce. */
  function Div(a: real, b: real): (q: Quotient)
    ensures q.Finite? <==> b != 0.0
    ensures q.Finite? ==> q.val * b == a
    ensures q.NaN? <==> a == 0.0 && b == 0.0
    ensures Exceeds(q, 0.0) <==> (b == 0.0 && a > 0.0) || (b != 0.0 && (a > 0.0 <==> b > 0.0) && a != 0.0)
  {
    if b != 0.0 then Finite(a / b)
    else if a > 0.0 then PosInf
    else if a < 0.0 then NegInf
    else NaN
  }

  /** The IEEE comparison `q > t` against a finite `t`; false when `q` is NaN. */
  predicate Exceeds(q: Quotient, t: real)
    ensures q.NaN? ==> !Exceeds(q, t) && !AtMost(q, Finite(t))
    ensures !q.NaN? ==> (Exceeds(q, t) <==> !AtMost(q, Finite(t)))
  {
    match q
    case Finite(x) => x > t
    case PosInf => true
    case NegInf => false
    case NaN => false
  }

  /** The IEEE comparison `a <= b`; false when either side is NaN. */
  predicate AtMost(a: Quotient, b: Quotient)
    ensures AtMost(a, b) ==> !a.NaN? && !b.NaN?
    ensures a.Finite? && b.Finite? ==> (AtMost(a, b) <==> a.val <= b.val)
    ensures a == b ==> (AtMost(a, b) <==> !a.NaN?)
  {
    if a.NaN? || b.NaN? then false
    else if a.NegInf? || b.PosInf? then true
    else if a.PosInf? || b.NegInf? then false
    else a.val <= b.val
  }

  /** What PCA promises of its explained variances: non-increasing and non-negative. */
  ghost predicate NonIncreasing(s: seq<real>)
  {
    forall i, j :: 0 <= i <= j < |s| ==> s[j] <= s[i]
  }

  ghost predicate IsSpectrum(s: seq<real>)
  {
    NonIncreasing(s) && forall i :: 0 <= i < |s| ==> 0.0 <= s[i]
  }

  // ---------------------------------------------------------------------------
  // Sums

  /** `sum(s)`, accumulated left to right. */
  function Sum(s: seq<real>): real
  {
    if s == [] then 0.0 else Sum(s[..|s| - 1]) + s[|s| - 1]
  }

  /** `np.cumsum(s)`: entry i is the sum of s[0..i]. */
  function CumSum(s: seq<real>): (c: seq<real>)
    ensures |c| == |s|
  {
    seq(|s|, i requires 0 <= i < |s| => Sum(s[..i + 1]))
  }

  /** The running total numpy accumulates: the first cumulative sum is the
      first entry, and each later one adds the next entry to the previous. */
  lemma CumSumSteps(s: seq<real>)
    ensures |s| > 0 ==> CumSum(s)[0] == s[0]
    ensures forall i :: 0 < i < |s| ==> CumSum(s)[i] == CumSum(s)[i - 1] + s[i]
  {
    if |s| > 0 {
      assert s[..1][..0] == [];
      assert Sum(s[..1]) == Sum(s[..1][..0]) + s[0];
    }
    assert forall i :: 0 < i < |s| ==> s[..i + 1][..i] == s[..i];
  }

  /** `np.mean(s)`. */
  function Mean(s: seq<real>): (m: real)
    requires |s| > 0
    ensures (|s| as real) * m == Sum(s)
  {
    Sum(s) / (|s| as real)
  }

  /** `s - c`, elementwise. */
  function Shifted(s: seq<real>, c: real): (t: seq<real>)
    ensures |t| == |s|
  {
    seq(|s|, i requires 0 <= i < |s| => s[i] - c)
  }

  /** `np.cumsum(s) / sum(s)`: the share of the total reached by each prefix. */
  function CumulativeShares(s: seq<real>): (q: seq<Quotient>)
    ensures |q| == |s|
  {
    seq(|s|, i requires 0 <= i < |s| => Div(CumSum(s)[i], Sum(s)))
  }

  lemma {:induction false} SumSplit(s: seq<real>, k: nat)
    requires k <= |s|
    ensures Sum(s) == Sum(s[..k]) + Sum(s[k..])
    decreases |s|
  {
    if k == |s| {
      assert s[..k] == s;
      assert s[k..] == [];
    } else {
      var n := |s|;
      SumSplit(s[..n - 1], k);
      assert s[..n - 1][..k] == s[..k];
      assert s[k..][..|s[k..]| - 1] == s[..n - 1][k..];
    }
  }

  lemma {:induction false} SumOfShifted(s: seq<real>, c: real)
    ensures Sum(Shifted(s, c)) == Sum(s) - (|s| as real) * c
    decreases |s|
  {
    if s != [] {
      var n := |s|;
      SumOfShifted(s[..n - 1], c);
      assert Shifted(s, c)[..n - 1] == Shifted(s[..n - 1], c);
    }
  }

  /** Every entry at least c: the sum is at least |s| * c. */
  lemma {:induction false} SumAtLeast(s: seq<real>, c: real)
    requires forall i :: 0 <= i < |s| ==> c <= s[i]
    ensures (|s| as real) * c <= Sum(s)
    decreases |s|
  {
    if s != [] {
      SumAtLeast(s[..|s| - 1], c);
    }
  }

  /** Every entry at most c: the sum is at most |s| * c, with equality only when
      every entry is c. */
  lemma {:induction false} SumAtMost(s: seq<real>, c: real)
    requires forall i :: 0 <= i < |s| ==> s[i] <= c
    ensures Sum(s) <= (|s| as real) * c
    ensures Sum(s) == (|s| as real) * c ==> forall i :: 0 <= i < |s| ==> s[i] == c
    decreases |s|
  {
    if s != [] {
      var n := |s|;
      var front := s[..n - 1];
      assert forall i :: 0 <= i < n - 1 ==> front[i] == s[i];
      SumAtMost(front, c);
      assert (n as real) * c == ((n - 1) as real) * c + c;
      assert Sum(s) == Sum(front) + s[n - 1];
    }
  }

  /** Every entry at most c: the mean is at most c, and equals c only when every
      entry does. */
  lemma MeanAtMost(s: seq<real>, c: real)
    requires |s| > 0 && forall i :: 0 <= i < |s| ==> s[i] <= c
    ensures Mean(s) <= c
    ensures Mean(s) == c ==> forall i :: 0 <= i < |s| ==> s[i] == c
  {
    SumAtMost(s, c);
    CancelFactor(|s| as real, Mean(s), c);
  }

  /** Every entry at least c: the mean is at least c. */
  lemma MeanAtLeast(s: seq<real>, c: real)
    requires |s| > 0 && forall i :: 0 <= i < |s| ==> c <= s[i]
    ensures c <= Mean(s)
  {
    SumAtLeast(s, c);
    CancelFactor(|s| as real, c, Mean(s));
  }

  lemma CancelFactor(n: real, a: real, b: real)
    requires n > 0.0 && n * a <= n * b
    ensures a <= b
  {
  }

  /** A spectrum with a positive total has a positive largest entry. */
  lemma LeadingEntryPositive(s: seq<real>)
    requires |s| > 0 && IsSpectrum(s) && Sum(s) > 0.0
    ensures s[0] > 0.0
  {
    assert forall i :: 0 <= i < |s| ==> s[i] <= s[0];
    SumAtMost(s, s[0]);
  }

  /** On non-negative entries a longer prefix never has a smaller sum. */
  lemma PrefixSumsGrow(s: seq<real>, k: nat, l: nat)
    requires forall i :: 0 <= i < |s| ==> 0.0 <= s[i]
    requires k <= l <= |s|
    ensures Sum(s[..k]) <= Sum(s[..l])
  {
    SumSplit(s[..l], k);
    assert s[..l][..k] == s[..k];
    SumAtLeast(s[..l][k..], 0.0);
  }

  lemma CumSumLast(s: seq<real>)
    requires |s| > 0
    ensures CumSum(s)[|s| - 1] == Sum(s)
  {
    assert s[..|s|] == s;
  }

  /** With a positive total, the full prefix holds exactly all of it. */
  lemma FullShareIsOne(s: seq<real>)
    requires |s| > 0 && Sum(s) > 0.0
    ensures CumulativeShares(s)[|s| - 1] == Finite(1.0)
  {
    CumSumLast(s);
    assert CumulativeShares(s)[|s| - 1] == Div(CumSum(s)[|s| - 1], Sum(s));
    DivSelf(Sum(s));
  }

  lemma DivSelf(x: real)
    requires x > 0.0
    ensures Div(x, x) == Finite(1.0)
  {
  }

  // ---------------------------------------------------------------------------
  // Boolean masks and the numpy reductions over them

  /** `s > t`, elementwise. */
  function Above(s: seq<real>, t: real): (m: seq<bool>)
    ensures |m| == |s|
  {
    seq(|s|, i requires 0 <= i < |s| => s[i] > t)
  }

  /** `q > t`, elementwise, with IEEE comparisons. */
  function QuotientsAbove(q: seq<Quotient>, t: real): (m: seq<bool>)
    ensures |m| == |q|
  {
    seq(|q|, i requires 0 <= i < |q| => Exceeds(q[i], t))
  }

  /** `sum(mask)`: the number of true entries. */
  function CountTrue(m: seq<bool>): (n: nat)
    ensures n <= |m|
    ensures n == 0 <==> forall i :: 0 <= i < |m| ==> !m[i]
    ensures n == |m| <==> forall i :: 0 <= i < |m| ==> m[i]
  {
    if m == [] then 0 else CountTrue(m[..|m| - 1]) + if m[|m| - 1] then 1 else 0
  }

  ghost predicate PrefixClosed(m: seq<bool>)
  {
    forall i, j :: 0 <= i <= j < |m| && m[j] ==> m[i]
  }

  /** A mask whose true entries come first counts exactly its leading run. */
  lemma {:induction false} CountTrueOfPrefix(m: seq<bool>)
    requires PrefixClosed(m)
    ensures forall i :: 0 <= i < CountTrue(m) ==> m[i]
    ensures forall i :: CountTrue(m) <= i < |m| ==> !m[i]
    decreases |m|
  {
    if m != [] {
      var n := |m|;
      var front := m[..n - 1];
      assert PrefixClosed(front) by {
        forall i, j | 0 <= i <= j < |front| && front[j] ensures front[i] {
          assert m[j];
        }
      }
      CountTrueOfPrefix(front);
      if m[n - 1] {
        assert forall i :: 0 <= i < n - 1 ==> front[i];
        assert CountTrue(front) == n - 1;
      }
    }
  }

  /** `np.where(mask)[0]`: the positions of the true entries, ascending. */
  function Where(m: seq<bool>): (idx: seq<nat>)
    ensures forall k :: 0 <= k < |idx| ==> idx[k] < |m| && m[idx[k]]
    ensures forall i :: 0 <= i < |m| && m[i] ==> i in idx
    ensures forall k, l :: 0 <= k < l < |idx| ==> idx[k] < idx[l]
  {
    if m == [] then []
    else
      var front := Where(m[..|m| - 1]);
      assert forall i :: 0 <= i < |m| - 1 ==> m[..|m| - 1][i] == m[i];
      front + if m[|m| - 1] then [|m| - 1] else []
  }

  /** `min` of a non-empty integer array. */
  function Min(s: seq<nat>): (r: nat)
    requires |s| > 0
    ensures r in s
    ensures forall k :: 0 <= k < |s| ==> r <= s[k]
  {
    if |s| == 1 then s[0]
    else
      var m := Min(s[1..]);
      assert forall k :: 1 <= k < |s| ==> s[1..][k - 1] == s[k];
      if s[0] <= m then s[0] else m
  }

  /** The positions `w` have a least element exactly when the mask `m` has a
      true entry, and that least element is the first true entry. */
  ghost predicate StartsAtFirstTrue(m: seq<bool>, w: seq<nat>)
  {
    (|w| == 0 <==> forall i :: 0 <= i < |m| ==> !m[i]) &&
    (|w| > 0 ==> Min(w) < |m| && m[Min(w)]) &&
    (|w| > 0 ==> forall i :: 0 <= i < |m| && m[i] ==> Min(w) <= i)
  }

  /** The smallest position `np.where` reports, read off with `min` or with
      `[0]`, is the first true entry; there is none exactly when the mask is
      all false. */
  lemma WhereFindsFirst(m: seq<bool>)
    ensures StartsAtFirstTrue(m, Where(m))
    ensures |Where(m)| > 0 ==> Min(Where(m)) == Where(m)[0]
  {
    var idx := Where(m);
    if |idx| > 0 {
      forall i | 0 <= i < |m| && m[i] ensures idx[0] <= i {
        assert i in idx;
      }
      assert Min(idx) in idx;
    }
  }

  /** `np.where(q > t)[0][0]`: the first position whose quotient exceeds t.
      None when there is none, where indexing the empty result fails. */
  function FirstExceeding(q: seq<Quotient>, t: real): (r: Option<nat>)
    ensures r.Some? ==> r.value < |q| && Exceeds(q[r.value], t)
    ensures r.Some? ==> forall j :: 0 <= j < r.value ==> !Exceeds(q[j], t)
    ensures r.None? <==> forall j :: 0 <= j < |q| ==> !Exceeds(q[j], t)
  {
    var idx := Where(QuotientsAbove(q, t));
    WhereOfQuotientsAbove(q, t);
    if |idx| == 0 then None else Some(idx[0])
  }

  lemma WhereOfQuotientsAbove(q: seq<Quotient>, t: real)
    ensures var idx := Where(QuotientsAbove(q, t));
      (|idx| == 0 <==> forall j :: 0 <= j < |q| ==> !Exceeds(q[j], t)) &&
      (|idx| > 0 ==> idx[0] < |q| && Exceeds(q[idx[0]], t)) &&
      (|idx| > 0 ==> forall j :: 0 <= j < idx[0] ==> !Exceeds(q[j], t))
  {
    var m := QuotientsAbove(q, t);
    var idx := Where(m);
    assert forall j :: 0 <= j < |q| ==> m[j] == Exceeds(q[j], t);
    WhereFindsFirst(m);
    if |idx| > 0 {
      assert Min(idx) == idx[0];
      assert forall j :: 0 <= j < |m| && m[j] ==> idx[0] <= j;
    }
  }

  /** Position i is reported by either of two masks, `a` possibly shorter. */
  predicate EitherAt(a: seq<bool>, b: seq<bool>, i: nat)
  {
    (i < |a| && a[i]) || (i < |b| && b[i])
  }

  /** The `min` of two concatenated `np.where` results is the first position
      that either mask reports; the concatenation is empty exactly when
      neither reports any. */
  lemma WhereUnionFindsFirst(a: seq<bool>, b: seq<bool>)
    requires |a| <= |b|
    ensures var idx := Where(a) + Where(b);
      (|idx| == 0 <==> forall i :: 0 <= i < |b| ==> !EitherAt(a, b, i)) &&
      (|idx| > 0 ==> Min(idx) < |b| && EitherAt(a, b, Min(idx))) &&
      (|idx| > 0 ==> forall i :: 0 <= i < |b| && EitherAt(a, b, i) ==> Min(idx) <= i)
  {
    WhereFindsFirst(a);
    WhereFindsFirst(b);
    UnionStartsAtFirst(a, b, Where(a), Where(b));
  }

  /** `np.min(np.concatenate((np.where(a)[0], np.where(b)[0])))`: the first
      position either mask reports, None when the concatenation is empty. */
  function FirstOfEither(a: seq<bool>, b: seq<bool>): (r: Option<nat>)
    requires |a| <= |b|
    ensures r.Some? ==> r.value < |b| && EitherAt(a, b, r.value)
    ensures r.Some? ==> forall i :: 0 <= i < r.value ==> !EitherAt(a, b, i)
    ensures r.None? <==> forall i :: 0 <= i < |b| ==> !EitherAt(a, b, i)
  {
    var idx := Where(a) + Where(b);
    WhereUnionFindsFirst(a, b);
    if |idx| == 0 then None else Some(Min(idx))
  }

  lemma UnionStartsAtFirst(a: seq<bool>, b: seq<bool>, wa: seq<nat>, wb: seq<nat>)
    requires |a| <= |b|
    requires StartsAtFirstTrue(a, wa) && StartsAtFirstTrue(b, wb)
    ensures var idx := wa + wb;
      (|idx| == 0 <==> forall i :: 0 <= i < |b| ==> !EitherAt(a, b, i)) &&
      (|idx| > 0 ==> Min(idx) < |b| && EitherAt(a, b, Min(idx))) &&
      (|idx| > 0 ==> forall i :: 0 <= i < |b| && EitherAt(a, b, i) ==> Min(idx) <= i)
  {
    var idx := wa + wb;
    if |wa| == 0 {
      assert idx == wb;
      assert |wb| > 0 ==> EitherAt(a, b, Min(wb));
    } else if |wb| == 0 {
      assert idx == wa;
      assert EitherAt(a, b, Min(wa));
    } else {
      MinOfConcat(wa, wb);
      assert EitherAt(a, b, Min(wa)) && EitherAt(a, b, Min(wb));
    }
  }

  lemma MinOfConcat(x: seq<nat>, y: seq<nat>)
    requires |x| > 0 && |y| > 0
    ensures Min(x + y) == if Min(x) <= Min(y) then Min(x) else Min(y)
  {
    var m := Min(x + y);
    var k :| 0 <= k < |x + y| && (x + y)[k] == m;
    if k < |x| {
      assert (x + y)[k] == x[k];
    } else {
      assert (x + y)[k] == y[k - |x|];
    }
    var i :| 0 <= i < |x| && x[i] == Min(x);
    assert (x + y)[i] == Min(x);
    var j :| 0 <= j < |y| && y[j] == Min(y);
    assert (x + y)[|x| + j] == Min(y);
  }

  /** `np.argmax`: the first position of a largest entry of a NaN-free array. */
  function ArgMax(s: seq<Quotient>): (k: nat)
    requires |s| > 0
    requires forall i :: 0 <= i < |s| ==> !s[i].NaN?
    ensures k < |s|
    ensures forall j :: 0 <= j < |s| ==> AtMost(s[j], s[k])
    ensures forall j :: 0 <= j < k ==> !AtMost(s[k], s[j])
  {
    if |s| == 1 then 0
    else
      var k' := 1 + ArgMax(s[1..]);
      assert forall j :: 1 <= j < |s| ==> s[1..][j - 1] == s[j];
      if AtMost(s[k'], s[0]) then 0 else k'
  }

  /** nanargmax's view of an entry: NaN becomes -inf, and nothing else changes. */
  function NanToNegInf(q: Quotient): (r: Quotient)
    ensures !r.NaN?
    ensures r != q ==> q.NaN? && r.NegInf?
  {
    if q.NaN? then NegInf else q
  }

  /** `np.nanargmax`: fails (None) when every entry is NaN; otherwise replaces
      NaN by -inf and takes the first argmax. */
  function NanArgMax(s: seq<Quotient>): (r: Option<nat>)
    ensures r.None? <==> forall i :: 0 <= i < |s| ==> s[i].NaN?
    ensures r.Some? ==> r.value < |s|
  {
    if forall i :: 0 <= i < |s| ==> s[i].NaN? then None
    else Some(ArgMax(seq(|s|, i requires 0 <= i < |s| => NanToNegInf(s[i]))))
  }

  /** When no entry is -inf, nanargmax lands on a non-NaN entry that no entry
      exceeds, and every entry before it is strictly smaller. */
  lemma NanArgMaxIsFirstLargest(s: seq<Quotient>)
    requires exists i :: 0 <= i < |s| && !s[i].NaN?
    requires forall i :: 0 <= i < |s| ==> !s[i].NegInf?
    ensures NanArgMax(s).Some?
    ensures var k := NanArgMax(s).value;
      !s[k].NaN? &&
      (forall j :: 0 <= j < |s| && !s[j].NaN? ==> AtMost(s[j], s[k])) &&
      (forall j :: 0 <= j < k ==> !AtMost(s[k], s[j]))
  {
    var t := seq(|s|, i requires 0 <= i < |s| => NanToNegInf(s[i]));
    var k := NanArgMax(s).value;
    assert k == ArgMax(t);
    var m :| 0 <= m < |s| && !s[m].NaN?;
    assert t[m] == s[m];
    assert AtMost(t[m], t[k]);
    assert t[k] != NegInf;
    assert t[k] == s[k];
    forall j | 0 <= j < |s| && !s[j].NaN? ensures AtMost(s[j], s[k]) {
      assert AtMost(t[j], t[k]);
      assert t[j] == s[j];
    }
    forall j | 0 <= j < k ensures !AtMost(s[k], s[j]) {
      assert !AtMost(t[k], t[j]);
      if !s[j].NaN? {
        assert t[j] == s[j];
      }
    }
  }

  /** Python's `s[i]`, negative indices counting from the end. */
  function PyIndex<T>(s: seq<T>, i: int): (x: T)
    requires -|s| <= i < |s|
    ensures x == s[(i + |s|) % |s|]
  {
    if i < 0 then s[|s| + i] else s[i]
  }

  // ---------------------------------------------------------------------------
  // Gaps

  /** `s[:-1] / s[1:]`: the ratio of each entry to the next. */
  function Gaps(s: seq<real>): (g: seq<Quotient>)
    ensures |s| > 0 ==> |g| == |s| - 1
  {
    if s == [] then []
    else seq(|s| - 1, i requires 0 <= i < |s| - 1 => Div(s[i], s[i + 1]))
  }

  /** The gap reported beside a dimension `de` (the tail shared by FO, maxgap and
      fan): `gaps[de-1]` when `de-1 < len(gaps)`, else `gaps[-1]`. Because
      `gaps[-1]` is Python's last entry, `de = 0` also reports the last gap. */
  function GapAt(gaps: seq<Quotient>, de: nat): (g: Quotient)
    requires |gaps| > 0
    ensures 1 <= de <= |gaps| ==> g == gaps[de - 1]
    ensures (de == 0 || de > |gaps|) ==> g == gaps[|gaps| - 1]
  {
    if de - 1 < |gaps| then PyIndex(gaps, de - 1) else PyIndex(gaps, -1)
  }

  /** On a spectrum no gap is -inf, and a gap is NaN exactly when both its
      entries are zero. */
  lemma GapsOfSpectrum(s: seq<real>)
    requires |s| >= 2 && IsSpectrum(s)
    ensures forall i :: 0 <= i < |s| - 1 ==> !Gaps(s)[i].NegInf?
    ensures forall i :: 0 <= i < |s| - 1 ==> (Gaps(s)[i].NaN? <==> s[i] == 0.0)
  {
    forall i | 0 <= i < |s| - 1 ensures Gaps(s)[i].NaN? <==> s[i] == 0.0 {
      assert s[i + 1] <= s[i];
    }
  }

  /** On a strictly positive spectrum every gap is finite and at least 1. */
  lemma GapsOfPositiveSpectrum(s: seq<real>)
    requires |s| >= 2 && IsSpectrum(s) && s[|s| - 1] > 0.0
    ensures forall i :: 0 <= i < |s| - 1 ==> Gaps(s)[i].Finite? && Gaps(s)[i].val >= 1.0
  {
    forall i | 0 <= i < |s| - 1 ensures Gaps(s)[i].Finite? && Gaps(s)[i].val >= 1.0 {
      var a, b := s[i], s[i + 1];
      assert s[|s| - 1] <= b <= a;
      QuotientAtLeastOne(a, b);
    }
  }

  lemma QuotientAtLeastOne(a: real, b: real)
    requires 0.0 < b <= a
    ensures a / b >= 1.0
  {
  }
}
