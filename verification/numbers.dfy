/** Scalar helpers shared by the frame handler model: a double that may be
    NaN, the comparisons the source performs on doubles, and counting
    functions over flag and residual vectors. */
module Numbers {

  /** A double-precision value as the handler sees it: a finite number or
      NaN (the result of 0/0). Infinities are not represented. */
  datatype Double = Finite(v: real) | NaN

  function Abs(x: real): (r: real)
    ensures 0.0 <= r && (r == x || r == -x)
  {
    if x < 0.0 then -x else x
  }

  /** `a < b` on doubles: false as soon as either side is NaN. */
  predicate Less(a: Double, b: Double)
  {
    a.Finite? && b.Finite? && a.v < b.v
  }

  /** `abs(a - b) < c` on doubles: false as soon as either side is NaN. */
  predicate CloserThan(a: Double, b: Double, c: real)
  {
    a.Finite? && b.Finite? && Abs(a.v - b.v) < c
  }

  /** Number of `true` entries. */
  function CountTrue(bs: seq<bool>): (n: nat)
    ensures n <= |bs|
  {
    if |bs| == 0 then 0 else (if bs[0] then 1 else 0) + CountTrue(bs[1..])
  }

  /** Number of entries strictly above `th`. */
  function CountAbove(xs: seq<real>, th: real): (n: nat)
    ensures n <= |xs|
  {
    if |xs| == 0 then 0 else (if xs[0] > th then 1 else 0) + CountAbove(xs[1..], th)
  }

  function Sum(xs: seq<real>): real
  {
    if |xs| == 0 then 0.0 else xs[0] + Sum(xs[1..])
  }

  predicate AllTrue(bs: seq<bool>)
  {
    forall k :: 0 <= k < |bs| ==> bs[k]
  }

  predicate AllFalse(bs: seq<bool>)
  {
    forall k :: 0 <= k < |bs| ==> !bs[k]
  }

  /** No entry of `after` is true unless it was true in `before`. */
  predicate NeverRaised(before: seq<bool>, after: seq<bool>)
  {
    |before| == |after| && forall k :: 0 <= k < |after| && after[k] ==> before[k]
  }

  lemma {:induction false} CountTrueAll(bs: seq<bool>)
    requires AllTrue(bs)
    ensures CountTrue(bs) == |bs|
  {
    if |bs| > 0 {
      CountTrueAll(bs[1..]);
    }
  }

  lemma {:induction false} CountTrueNone(bs: seq<bool>)
    requires AllFalse(bs)
    ensures CountTrue(bs) == 0
  {
    if |bs| > 0 {
      CountTrueNone(bs[1..]);
    }
  }

  predicate NonNegatives(xs: seq<real>)
  {
    forall k :: 0 <= k < |xs| ==> 0.0 <= xs[k]
  }

  lemma {:induction false} SumNonNegative(xs: seq<real>)
    requires NonNegatives(xs)
    ensures 0.0 <= Sum(xs)
  {
    if |xs| > 0 {
      SumNonNegative(xs[1..]);
    }
  }

  /** Lowering flags never increases their count. */
  lemma {:induction false} CountTrueNeverRaised(before: seq<bool>, after: seq<bool>)
    requires NeverRaised(before, after)
    ensures CountTrue(after) <= CountTrue(before)
  {
    if |after| > 0 {
      assert NeverRaised(before[1..], after[1..]) by {
        forall k | 0 <= k < |after[1..]| && after[1..][k]
          ensures before[1..][k]
        {
          assert after[k + 1];
        }
      }
      CountTrueNeverRaised(before[1..], after[1..]);
    }
  }
}
