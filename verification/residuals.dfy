/** The bookkeeping of one linearisation (optimizeFunctions_nonweighted and
    optimizeFunctions_uncweighted): which correspondences contribute, the
    inlier flags they lower, the per-modality counts, the robust and
    uncertainty weights of the error terms, the point/line balance and the
    normalised error. Jacobians, Hessians and gradients are not modelled;
    every correspondence arrives as its residual at the pose. */
module Residuals {
  import opened Numbers
  import opened Frames

  type NonNegReal = x: real | 0.0 <= x

  datatype Weighting = NonWeighted | UncertaintyWeighted

  datatype BuildConfig = BuildConfig(
    weighting: Weighting,
    homogTh: real,
    robustCost: bool,
    scalePointsLines: bool,
    hasPoints: bool,
    hasLines: bool)

  /** One correspondence at a pose: the norm of its reprojection error, its
      uncertainty weight (used in uncertainty mode) and, for a line, whether
      both endpoint variances came out finite. */
  datatype Residual = Residual(norm: NonNegReal, wunc: real, finite: bool)

  /** The Cauchy-like robust weight: 1/(1+r^2) without uncertainty,
      1/(1+r) with it, 1 when the robust cost is off. */
  function RobustWeight(cfg: BuildConfig, r: NonNegReal): (w: real)
    ensures 0.0 < w <= 1.0
    ensures !cfg.robustCost || r == 0.0 ==> w == 1.0
  {
    if !cfg.robustCost then 1.0
    else if cfg.weighting == NonWeighted then 1.0 / (1.0 + r * r)
    else 1.0 / (1.0 + r)
  }

  lemma ReciprocalAntitone(d1: real, d2: real)
    requires 0.0 < d1 <= d2
    ensures 1.0 / d2 <= 1.0 / d1
  {
    var q1, q2 := 1.0 / d1, 1.0 / d2;
    assert q1 * d1 == 1.0 && q2 * d2 == 1.0;
    assert q2 * d1 <= q2 * d2;
  }

  lemma SquaresOrdered(r1: real, r2: real)
    requires 0.0 <= r1 <= r2
    ensures r1 * r1 <= r2 * r2
  {
    var a, b, c := r1 * r1, r1 * r2, r2 * r2;
    assert a <= b <= c;
  }

  /** Larger residuals never get larger weights. */
  lemma RobustWeightAntitone(cfg: BuildConfig, r1: NonNegReal, r2: NonNegReal)
    requires r1 <= r2
    ensures RobustWeight(cfg, r2) <= RobustWeight(cfg, r1)
  {
    if cfg.robustCost && cfg.weighting == NonWeighted {
      SquaresOrdered(r1, r2);
      ReciprocalAntitone(1.0 + r1 * r1, 1.0 + r2 * r2);
    } else if cfg.robustCost {
      ReciprocalAntitone(1.0 + r1, 1.0 + r2);
    }
  }

  /** The squared, weighted residual one contribution adds to the error. */
  function Term(cfg: BuildConfig, x: Residual): real
  {
    var unc := if cfg.weighting == UncertaintyWeighted then x.wunc else 1.0;
    x.norm * x.norm * RobustWeight(cfg, x.norm) * unc
  }

  /** An entry contributes when its flag is raised, its residual is above the
      homogeneity threshold and, where finiteness is checked, its variances
      are finite. */
  predicate Contributes(cfg: BuildConfig, flag: bool, x: Residual, checkFinite: bool)
  {
    flag && x.norm > cfg.homogTh && (checkFinite ==> x.finite)
  }

  /** The flags after the loop: an entry that was raised but does not
      contribute is lowered. */
  function Screen(cfg: BuildConfig, flags: seq<bool>, res: seq<Residual>, checkFinite: bool): (r: seq<bool>)
    requires |flags| == |res|
    ensures |r| == |flags|
    ensures forall k :: 0 <= k < |flags| ==> (r[k] <==> Contributes(cfg, flags[k], res[k], checkFinite))
    decreases |flags|
  {
    if |flags| == 0 then []
    else [Contributes(cfg, flags[0], res[0], checkFinite)] + Screen(cfg, flags[1..], res[1..], checkFinite)
  }

  /** The contributing entries' terms in order: the vector the spread
      statistic is computed from and whose sum is the modality's error. */
  function Terms(cfg: BuildConfig, flags: seq<bool>, res: seq<Residual>, checkFinite: bool): (ts: seq<real>)
    requires |flags| == |res|
    ensures |ts| == CountTrue(Screen(cfg, flags, res, checkFinite))
    decreases |flags|
  {
    if |flags| == 0 then []
    else
      var rest := Terms(cfg, flags[1..], res[1..], checkFinite);
      assert Screen(cfg, flags, res, checkFinite)[1..] == Screen(cfg, flags[1..], res[1..], checkFinite);
      if Contributes(cfg, flags[0], res[0], checkFinite) then [Term(cfg, res[0])] + rest else rest
  }

  /** How the two modalities are combined. */
  datatype Balance =
    | Summed
    | Scaled(fp: real, fl: real)   // point and line factors
    | Degenerate                   // a spread of exactly zero: 1/0 makes at least one factor NaN

  /** Scaling applies when it is enabled, both modalities are enabled and
      both spreads exceed the homogeneity threshold. */
  predicate ScalingApplies(cfg: BuildConfig, sP: real, sL: real)
  {
    cfg.scalePointsLines && sL > cfg.homogTh && sP > cfg.homogTh && cfg.hasPoints && cfg.hasLines
  }

  /** The balance of two spreads: summed unless scaling applies; scaled by
      factors derived from the spreads' reciprocals when it does, degenerate
      when a spread is exactly zero. */
  function BalanceOf(cfg: BuildConfig, sP: real, sL: real): (b: Balance)
    ensures b.Summed? <==> !ScalingApplies(cfg, sP, sL)
    ensures b.Degenerate? <==> ScalingApplies(cfg, sP, sL) && (sP == 0.0 || sL == 0.0)
    ensures b.Scaled? ==> b.fp == (sP + sL) / sP && b.fl == (sP + sL) / sL
  {
    if ScalingApplies(cfg, sP, sL) then
      if sP == 0.0 || sL == 0.0 then Degenerate
      else
        var pInv, lInv := 1.0 / sP, 1.0 / sL;
        FactorsOfSpreads(sP, sL);
        Scaled((pInv + lInv) / lInv, (pInv + lInv) / pInv)
    else Summed
  }

  /** The factors the source computes from the reciprocals of the spreads
      are the total spread over each modality's spread. */
  lemma FactorsOfSpreads(sP: real, sL: real)
    requires sP != 0.0 && sL != 0.0
    ensures (1.0 / sP + 1.0 / sL) / (1.0 / sL) == (sP + sL) / sP
    ensures (1.0 / sP + 1.0 / sL) / (1.0 / sP) == (sP + sL) / sL
  {
    var pInv, lInv := 1.0 / sP, 1.0 / sL;
    assert pInv * sP == 1.0 && lInv * sL == 1.0;
    var fp, fl := (pInv + lInv) / lInv, (pInv + lInv) / pInv;
    assert fp * lInv == pInv + lInv;
    assert fl * pInv == pInv + lInv;
    assert fp == (pInv + lInv) * sL by {
      assert fp == fp * (lInv * sL) == (fp * lInv) * sL;
    }
    assert fl == (pInv + lInv) * sP by {
      assert fl == fl * (pInv * sP) == (fl * pInv) * sP;
    }
    assert (pInv + lInv) * sL == (sP + sL) / sP by {
      assert (pInv + lInv) * sL == pInv * sL + 1.0;
      assert ((pInv * sL + 1.0) * sP) == sL + sP;
    }
    assert (pInv + lInv) * sP == (sP + sL) / sL by {
      assert (pInv + lInv) * sP == 1.0 + lInv * sP;
      assert ((1.0 + lInv * sP) * sL) == sL + sP;
    }
  }

  /** The scaled combination divides each modality's error by its spread
      and multiplies by the total spread; the two factors' reciprocals sum
      to one. */
  lemma ScaledBalanceNormalisesSpreads(cfg: BuildConfig, sP: real, sL: real, eP: real, eL: real)
    requires BalanceOf(cfg, sP, sL).Scaled? && 0.0 <= cfg.homogTh
    ensures var b := BalanceOf(cfg, sP, sL);
      && b.fp == 1.0 + sL / sP && b.fl == 1.0 + sP / sL
      && 1.0 / b.fp + 1.0 / b.fl == 1.0
      && eP * b.fp + eL * b.fl == (sP + sL) * (eP / sP + eL / sL)
  {
    var b := BalanceOf(cfg, sP, sL);
    var pInv, lInv := 1.0 / sP, 1.0 / sL;
    assert pInv * sP == 1.0 && lInv * sL == 1.0;
    assert b.fp == (pInv + lInv) / lInv;
    assert b.fp * lInv == pInv + lInv;
    assert b.fp == 1.0 + sL / sP by {
      assert (1.0 + sL / sP) * lInv == lInv + pInv by {
        assert (sL / sP) * lInv == pInv by {
          assert sL / sP == sL * pInv;
          assert sL * pInv * lInv == (sL * lInv) * pInv;
        }
      }
    }
    assert b.fl == 1.0 + sP / sL by {
      assert b.fl * pInv == pInv + lInv;
      assert (1.0 + sP / sL) * pInv == pInv + lInv by {
        assert (sP / sL) * pInv == lInv by {
          assert sP / sL == sP * lInv;
          assert sP * lInv * pInv == (sP * pInv) * lInv;
        }
      }
    }
    assert b.fp == (sP + sL) / sP;
    assert b.fl == (sP + sL) / sL;
    assert 0.0 < sP + sL;
    assert 1.0 / b.fp == sP / (sP + sL);
    assert 1.0 / b.fl == sL / (sP + sL);
  }

  datatype Built = Built(flags: Corr, nPt: nat, nLs: nat, balance: Balance, err: Double)

  /** One linearisation's bookkeeping. Points never check finiteness; lines
      do in uncertainty mode. The error is the balanced sum of the terms
      divided by the number of contributions: NaN (0/0) when nothing
      contributes or when a spread of zero made the factors NaN. */
  function Build(cfg: BuildConfig, flags: Corr, resPt: seq<Residual>, resLs: seq<Residual>,
                 mad: seq<real> -> real): (b: Built)
    requires |flags.pt| == |resPt| && |flags.ls| == |resLs|
    ensures SameShape(b.flags, flags)
    ensures NeverRaised(flags.pt, b.flags.pt) && NeverRaised(flags.ls, b.flags.ls)
    ensures forall k :: 0 <= k < |resPt| ==> (b.flags.pt[k] <==> flags.pt[k] && resPt[k].norm > cfg.homogTh)
    ensures forall k :: 0 <= k < |resLs| ==>
      (b.flags.ls[k] <==> flags.ls[k] && resLs[k].norm > cfg.homogTh &&
                          (cfg.weighting == UncertaintyWeighted ==> resLs[k].finite))
    ensures b.nPt == CountTrue(b.flags.pt) && b.nLs == CountTrue(b.flags.ls)
    ensures b.err.NaN? <==> b.nPt + b.nLs == 0 || b.balance.Degenerate?
  {
    var checkLs := cfg.weighting == UncertaintyWeighted;
    Assemble(cfg, Screen(cfg, flags.pt, resPt, false), Screen(cfg, flags.ls, resLs, checkLs),
             Terms(cfg, flags.pt, resPt, false), Terms(cfg, flags.ls, resLs, checkLs), mad)
  }

  /** The combination step of Build, from the screened flags and the terms. */
  function Assemble(cfg: BuildConfig, sp: seq<bool>, sl: seq<bool>, tp: seq<real>, tl: seq<real>,
                    mad: seq<real> -> real): Built
  {
    var balance := BalanceOf(cfg, mad(tp), mad(tl));
    Built(Corr(sp, sl), |tp|, |tl|, balance, Normalised(balance, Sum(tp), Sum(tl), |tp| + |tl|))
  }

  /** The combined error of the two modalities divided by the number of
      contributions, NaN for 0/0 or degenerate factors. */
  function Normalised(balance: Balance, eP: real, eL: real, n: nat): (err: Double)
    ensures err.NaN? <==> n == 0 || balance.Degenerate?
  {
    if n == 0 then NaN
    else match balance
      case Summed => Finite((eP + eL) / n as real)
      case Scaled(fp, fl) => Finite((eP * fp + eL * fl) / n as real)
      case Degenerate => NaN
  }

  // ---------------------------------------------------------------------
  // Properties

  /** Dividing each modality's error by its spread and multiplying by the
      total spread is what the two factors do. */
  lemma {:induction false} BalancedSum(sP: real, sL: real, eP: real, eL: real)
    requires sP != 0.0 && sL != 0.0
    ensures eP * ((sP + sL) / sP) + eL * ((sP + sL) / sL) == (sP + sL) * (eP / sP + eL / sL)
  {
    var t := sP + sL;
    assert eP * (t / sP) == t * (eP / sP);
    assert eL * (t / sL) == t * (eL / sL);
  }

  /** What the normalised error `err` of the modality sums eP and eL over n
      contributions is worth, given the spreads sP and sL. Without scaling
      it is the plain sum over n; with scaling, each modality's sum is
      divided by its spread and the whole multiplied by the total spread
      before the division by n; a zero spread under scaling gives NaN. */
  predicate ErrorValue(cfg: BuildConfig, sP: real, sL: real, eP: real, eL: real, n: nat, err: Double)
  {
    && (0 < n && !ScalingApplies(cfg, sP, sL) ==> err == Finite((eP + eL) / n as real))
    && (0 < n && ScalingApplies(cfg, sP, sL) && sP != 0.0 && sL != 0.0 ==>
          err == Finite((sP + sL) * (eP / sP + eL / sL) / n as real))
    && (ScalingApplies(cfg, sP, sL) && (sP == 0.0 || sL == 0.0) ==> err == NaN)
  }

  lemma {:induction false} NormalisedValue(cfg: BuildConfig, sP: real, sL: real, eP: real, eL: real, n: nat)
    ensures ErrorValue(cfg, sP, sL, eP, eL, n, Normalised(BalanceOf(cfg, sP, sL), eP, eL, n))
  {
    if 0 < n && ScalingApplies(cfg, sP, sL) && sP != 0.0 && sL != 0.0 {
      var b := BalanceOf(cfg, sP, sL);
      assert b.fp == (sP + sL) / sP && b.fl == (sP + sL) / sL;
      BalancedSum(sP, sL, eP, eL);
      var x := eP * b.fp + eL * b.fl;
      assert x == (sP + sL) * (eP / sP + eL / sL);
      assert Normalised(b, eP, eL, n) == Finite(x / n as real);
    }
  }

  /** The value of a non-NaN error: the terms are those of the contributing
      entries, and the error is their plain or balanced sum over their
      number as ErrorValue describes. */
  lemma BuildErrorValue(cfg: BuildConfig, flags: Corr, resPt: seq<Residual>, resLs: seq<Residual>,
                        mad: seq<real> -> real)
    requires |flags.pt| == |resPt| && |flags.ls| == |resLs|
    ensures var b := Build(cfg, flags, resPt, resLs, mad);
      var tp := Terms(cfg, flags.pt, resPt, false);
      var tl := Terms(cfg, flags.ls, resLs, cfg.weighting == UncertaintyWeighted);
      && |tp| == b.nPt && |tl| == b.nLs
      && ErrorValue(cfg, mad(tp), mad(tl), Sum(tp), Sum(tl), b.nPt + b.nLs, b.err)
  {
    var checkLs := cfg.weighting == UncertaintyWeighted;
    var sp, sl := Screen(cfg, flags.pt, resPt, false), Screen(cfg, flags.ls, resLs, checkLs);
    var tp, tl := Terms(cfg, flags.pt, resPt, false), Terms(cfg, flags.ls, resLs, checkLs);
    assert Build(cfg, flags, resPt, resLs, mad) == Assemble(cfg, sp, sl, tp, tl, mad);
    NormalisedValue(cfg, mad(tp), mad(tl), Sum(tp), Sum(tl), |tp| + |tl|);
  }

  /** Screening twice is screening once. */
  lemma {:induction false} ScreenIdempotent(cfg: BuildConfig, flags: seq<bool>, res: seq<Residual>, checkFinite: bool)
    requires |flags| == |res|
    ensures Screen(cfg, Screen(cfg, flags, res, checkFinite), res, checkFinite) == Screen(cfg, flags, res, checkFinite)
  {
    var s := Screen(cfg, flags, res, checkFinite);
    var s2 := Screen(cfg, s, res, checkFinite);
    assert forall k :: 0 <= k < |s| ==> s2[k] == s[k];
  }

  /** The terms depend on the flags only through the screened flags. */
  lemma {:induction false} TermsAfterScreen(cfg: BuildConfig, flags: seq<bool>, res: seq<Residual>, checkFinite: bool)
    requires |flags| == |res|
    ensures Terms(cfg, Screen(cfg, flags, res, checkFinite), res, checkFinite) == Terms(cfg, flags, res, checkFinite)
    decreases |flags|
  {
    if |flags| > 0 {
      var s := Screen(cfg, flags, res, checkFinite);
      assert s[1..] == Screen(cfg, flags[1..], res[1..], checkFinite);
      TermsAfterScreen(cfg, flags[1..], res[1..], checkFinite);
    }
  }

  /** Linearising again at the same pose with the flags the first pass left
      lowers nothing more and yields the same counts, balance and error. */
  lemma BuildStable(cfg: BuildConfig, flags: Corr, resPt: seq<Residual>, resLs: seq<Residual>,
                    mad: seq<real> -> real)
    requires |flags.pt| == |resPt| && |flags.ls| == |resLs|
    ensures var b := Build(cfg, flags, resPt, resLs, mad);
      Build(cfg, b.flags, resPt, resLs, mad) == b
  {
    var checkLs := cfg.weighting == UncertaintyWeighted;
    var sp, sl := Screen(cfg, flags.pt, resPt, false), Screen(cfg, flags.ls, resLs, checkLs);
    var tp, tl := Terms(cfg, flags.pt, resPt, false), Terms(cfg, flags.ls, resLs, checkLs);
    assert Build(cfg, flags, resPt, resLs, mad) == Assemble(cfg, sp, sl, tp, tl, mad);
    ScreenIdempotent(cfg, flags.pt, resPt, false);
    ScreenIdempotent(cfg, flags.ls, resLs, checkLs);
    TermsAfterScreen(cfg, flags.pt, resPt, false);
    TermsAfterScreen(cfg, flags.ls, resLs, checkLs);
    assert Build(cfg, Corr(sp, sl), resPt, resLs, mad) == Assemble(cfg, sp, sl, tp, tl, mad);
  }

  /** When every residual is at or below the homogeneity threshold, every
      flag is lowered and the error is NaN. */
  lemma DegenerateResidualsGiveNaN(cfg: BuildConfig, flags: Corr, resPt: seq<Residual>, resLs: seq<Residual>,
                                   mad: seq<real> -> real)
    requires |flags.pt| == |resPt| && |flags.ls| == |resLs|
    requires forall k :: 0 <= k < |resPt| ==> resPt[k].norm <= cfg.homogTh
    requires forall k :: 0 <= k < |resLs| ==> resLs[k].norm <= cfg.homogTh
    ensures var b := Build(cfg, flags, resPt, resLs, mad);
      AllFalse(b.flags.pt) && AllFalse(b.flags.ls) && b.err == NaN
  {
    var b := Build(cfg, flags, resPt, resLs, mad);
    CountTrueNone(b.flags.pt);
    CountTrueNone(b.flags.ls);
  }

  lemma TermNonNegative(cfg: BuildConfig, x: Residual)
    requires cfg.weighting == NonWeighted
    ensures 0.0 <= Term(cfg, x)
  {
    var sq := x.norm * x.norm;
    var w := RobustWeight(cfg, x.norm);
    assert 0.0 <= sq;
    assert 0.0 <= sq * w;
  }

  lemma {:induction false} TermsNonNegative(cfg: BuildConfig, flags: seq<bool>, res: seq<Residual>, checkFinite: bool)
    requires |flags| == |res| && cfg.weighting == NonWeighted
    ensures NonNegatives(Terms(cfg, flags, res, checkFinite))
    decreases |flags|
  {
    if |flags| > 0 {
      var rest := Terms(cfg, flags[1..], res[1..], checkFinite);
      TermsNonNegative(cfg, flags[1..], res[1..], checkFinite);
      TermNonNegative(cfg, res[0]);
      var ts := Terms(cfg, flags, res, checkFinite);
      if Contributes(cfg, flags[0], res[0], checkFinite) {
        assert ts == [Term(cfg, res[0])] + rest;
        forall k | 0 <= k < |ts| ensures 0.0 <= ts[k] {
          if k > 0 { assert ts[k] == rest[k - 1]; }
        }
      } else {
        assert ts == rest;
      }
    }
  }

  /** With non-negative module errors, the scaled combination is non-negative. */
  lemma ScaledSumNonNegative(cfg: BuildConfig, sP: real, sL: real, eP: real, eL: real)
    requires 0.0 <= eP && 0.0 <= eL && 0.0 <= cfg.homogTh
    ensures var b := BalanceOf(cfg, sP, sL);
      b.Scaled? ==> 0.0 <= eP * b.fp + eL * b.fl
  {
    var b := BalanceOf(cfg, sP, sL);
    if b.Scaled? {
      ScaledBalanceNormalisesSpreads(cfg, sP, sL, eP, eL);
      assert 0.0 < sP && 0.0 < sL;
      assert 0.0 <= sL / sP && 0.0 <= sP / sL;
      var fp, fl := b.fp, b.fl;
      assert 1.0 <= fp && 1.0 <= fl;
      assert 0.0 <= eP * fp;
      assert 0.0 <= eL * fl;
    }
  }

  /** The combination step yields a non-negative error from non-negative terms. */
  lemma AssembleNonNegative(cfg: BuildConfig, sp: seq<bool>, sl: seq<bool>, tp: seq<real>, tl: seq<real>,
                            mad: seq<real> -> real)
    requires NonNegatives(tp) && NonNegatives(tl) && 0.0 <= cfg.homogTh
    ensures var b := Assemble(cfg, sp, sl, tp, tl, mad);
      b.err.Finite? ==> 0.0 <= b.err.v
  {
    var eP, eL := Sum(tp), Sum(tl);
    SumNonNegative(tp);
    SumNonNegative(tl);
    var sP, sL := mad(tp), mad(tl);
    NormalisedNonNegative(cfg, sP, sL, eP, eL, |tp| + |tl|);
  }

  lemma NormalisedNonNegative(cfg: BuildConfig, sP: real, sL: real, eP: real, eL: real, n: nat)
    requires 0.0 <= eP && 0.0 <= eL && 0.0 <= cfg.homogTh
    ensures var err := Normalised(BalanceOf(cfg, sP, sL), eP, eL, n);
      err.Finite? ==> 0.0 <= err.v
  {
    var balance := BalanceOf(cfg, sP, sL);
    if n != 0 && !balance.Degenerate? {
      var e := if balance.Summed? then eP + eL else eP * balance.fp + eL * balance.fl;
      assert 0.0 <= e by {
        ScaledSumNonNegative(cfg, sP, sL, eP, eL);
      }
      QuotientNonNegative(e, n);
    }
  }

  lemma QuotientNonNegative(e: real, n: nat)
    requires 0.0 <= e && 0 < n
    ensures 0.0 <= e / n as real
  {
  }

  /** Without uncertainty weighting, and with a non-negative homogeneity
      threshold, a finite error is never negative. */
  lemma NonWeightedErrorNonNegative(cfg: BuildConfig, flags: Corr, resPt: seq<Residual>, resLs: seq<Residual>,
                                    mad: seq<real> -> real)
    requires |flags.pt| == |resPt| && |flags.ls| == |resLs|
    requires cfg.weighting == NonWeighted && 0.0 <= cfg.homogTh
    ensures var b := Build(cfg, flags, resPt, resLs, mad);
      b.err.Finite? ==> 0.0 <= b.err.v
  {
    var sp, sl := Screen(cfg, flags.pt, resPt, false), Screen(cfg, flags.ls, resLs, false);
    var tp, tl := Terms(cfg, flags.pt, resPt, false), Terms(cfg, flags.ls, resLs, false);
    TermsNonNegative(cfg, flags.pt, resPt, false);
    TermsNonNegative(cfg, flags.ls, resLs, false);
    AssembleNonNegative(cfg, sp, sl, tp, tl, mad);
    assert Build(cfg, flags, resPt, resLs, mad) == Assemble(cfg, sp, sl, tp, tl, mad);
  }
}
