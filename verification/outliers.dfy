/** removeOutliers: after a first optimisation, every correspondence whose
    reprojection residual exceeds inlierK times the robust spread of its
    modality is flagged outlier and the counters are decremented, whether
    or not the flag was already down. */
module Outliers {
  import opened Numbers
  import opened Frames

  /** The filter loop of one modality over its residuals: an entry above
      the threshold loses its flag and decrements both the total and the
      modality counter. */
  function Filter(flags: seq<bool>, res: seq<real>, th: real, total: int, modal: int): (r: (seq<bool>, int, int))
    requires |flags| == |res|
    ensures |r.0| == |flags|
    ensures forall k :: 0 <= k < |flags| ==> r.0[k] == (flags[k] && !(res[k] > th))
    ensures r.1 == total - CountAbove(res, th) && r.2 == modal - CountAbove(res, th)
    decreases |flags|
  {
    if |flags| == 0 then ([], total, modal)
    else
      var above := res[0] > th;
      var rest := Filter(flags[1..], res[1..], th,
                         if above then total - 1 else total,
                         if above then modal - 1 else modal);
      ([flags[0] && !above] + rest.0, rest.1, rest.2)
  }

  /** removeOutliers over both correspondence sets, given the residual
      norms at the first estimate, the threshold factor and the robust
      spread estimator. */
  function RemoveOutliers(c: Corr, n: InlierCounts, resPt: seq<real>, resLs: seq<real>,
                          inlierK: real, mad: seq<real> -> real): (r: (Corr, InlierCounts))
    requires |c.pt| == |resPt| && |c.ls| == |resLs|
    ensures SameShape(r.0, c)
    ensures var thP, thL := inlierK * mad(resPt), inlierK * mad(resLs);
      && (forall k :: 0 <= k < |c.pt| ==> r.0.pt[k] == (c.pt[k] && !(resPt[k] > thP)))
      && (forall k :: 0 <= k < |c.ls| ==> r.0.ls[k] == (c.ls[k] && !(resLs[k] > thL)))
      && r.1.points == n.points - CountAbove(resPt, thP)
      && r.1.lines == n.lines - CountAbove(resLs, thL)
      && r.1.total == n.total - CountAbove(resPt, thP) - CountAbove(resLs, thL)
    ensures NeverRaised(c.pt, r.0.pt) && NeverRaised(c.ls, r.0.ls)
    ensures r.1.total - r.1.points - r.1.lines == n.total - n.points - n.lines
    ensures r.1.points <= n.points && r.1.lines <= n.lines
  {
    var thP := inlierK * mad(resPt);
    var thL := inlierK * mad(resLs);
    var p := Filter(c.pt, resPt, thP, n.total, n.points);
    var l := Filter(c.ls, resLs, thL, p.1, n.lines);
    (Corr(p.0, l.0), InlierCounts(l.1, p.2, l.2))
  }

  /** Number of entries whose flag is already down and whose residual is
      above the threshold: each of them is decremented a second time. */
  function CountStaleAbove(flags: seq<bool>, res: seq<real>, th: real): (n: nat)
    requires |flags| == |res|
    ensures n <= CountAbove(res, th)
  {
    if |flags| == 0 then 0
    else (if !flags[0] && res[0] > th then 1 else 0) + CountStaleAbove(flags[1..], res[1..], th)
  }

  /** The counter drops by every entry above the threshold, while the
      number of raised flags drops only by those that were still raised:
      the difference between counter and flag count shifts by exactly the
      stale entries above the threshold. */
  lemma {:induction false} FilterShiftsGap(flags: seq<bool>, res: seq<real>, th: real, total: int, modal: int)
    requires |flags| == |res|
    ensures var r := Filter(flags, res, th, total, modal);
      r.2 - CountTrue(r.0) == modal - CountTrue(flags) - CountStaleAbove(flags, res, th)
    decreases |flags|
  {
    if |flags| > 0 {
      var above := res[0] > th;
      FilterShiftsGap(flags[1..], res[1..], th,
                      if above then total - 1 else total,
                      if above then modal - 1 else modal);
      var r := Filter(flags, res, th, total, modal);
      assert r.0[1..] == Filter(flags[1..], res[1..], th,
                                if above then total - 1 else total,
                                if above then modal - 1 else modal).0;
    }
  }

  /** From a clean start (all flags raised and the counter equal to their
      number, as tracking leaves them) the counter afterwards is exactly the
      number of raised flags. */
  lemma CleanStartKeepsCountsExact(c: Corr, n: InlierCounts, resPt: seq<real>, resLs: seq<real>,
                                   inlierK: real, mad: seq<real> -> real)
    requires |c.pt| == |resPt| && |c.ls| == |resLs|
    requires AllTrue(c.pt) && AllTrue(c.ls) && n.points == |c.pt| && n.lines == |c.ls|
    ensures var r := RemoveOutliers(c, n, resPt, resLs, inlierK, mad);
      r.1.points == CountTrue(r.0.pt) && r.1.lines == CountTrue(r.0.ls)
  {
    var thP, thL := inlierK * mad(resPt), inlierK * mad(resLs);
    CountTrueAll(c.pt);
    CountTrueAll(c.ls);
    FilterShiftsGap(c.pt, resPt, thP, n.total, n.points);
    FilterShiftsGap(c.ls, resLs, thL, n.total - CountAbove(resPt, thP), n.lines);
    StaleNoneWhenAllRaised(c.pt, resPt, thP);
    StaleNoneWhenAllRaised(c.ls, resLs, thL);
  }

  lemma {:induction false} StaleAtMostLowered(flags: seq<bool>, res: seq<real>, th: real)
    requires |flags| == |res|
    ensures CountStaleAbove(flags, res, th) <= |flags| - CountTrue(flags)
  {
    if |flags| > 0 {
      StaleAtMostLowered(flags[1..], res[1..], th);
    }
  }

  /** When the counters start at the sizes of the correspondence sets, as
      tracking leaves them, they stay upper bounds of the raised flags after
      removeOutliers, whatever flags the optimiser lowered in between. */
  lemma CountersBoundRaisedFlags(c: Corr, n: InlierCounts, resPt: seq<real>, resLs: seq<real>,
                                 inlierK: real, mad: seq<real> -> real)
    requires |c.pt| == |resPt| && |c.ls| == |resLs|
    requires n.points == |c.pt| && n.lines == |c.ls|
    ensures var r := RemoveOutliers(c, n, resPt, resLs, inlierK, mad);
      CountTrue(r.0.pt) <= r.1.points && CountTrue(r.0.ls) <= r.1.lines
  {
    var thP, thL := inlierK * mad(resPt), inlierK * mad(resLs);
    FilterShiftsGap(c.pt, resPt, thP, n.total, n.points);
    FilterShiftsGap(c.ls, resLs, thL, n.total - CountAbove(resPt, thP), n.lines);
    StaleAtMostLowered(c.pt, resPt, thP);
    StaleAtMostLowered(c.ls, resLs, thL);
  }

  lemma {:induction false} StaleNoneWhenAllRaised(flags: seq<bool>, res: seq<real>, th: real)
    requires |flags| == |res| && AllTrue(flags)
    ensures CountStaleAbove(flags, res, th) == 0
  {
    if |flags| > 0 {
      StaleNoneWhenAllRaised(flags[1..], res[1..], th);
    }
  }

  /** The decrement does not look at the flag: an entry whose flag is
      already down is counted off again. With a zero counter and one lowered
      flag whose residual is above the threshold (the state a second pass
      over the same correspondence sets can meet), the counter ends at -1. */
  lemma StaleFlagDecrementedAgain()
    ensures var r := RemoveOutliers(Corr([false], []), InlierCounts(0, 0, 0), [5.0], [],
                                     1.0, (xs: seq<real>) => 0.0);
      r.1.points == -1 && CountTrue(r.0.pt) == 0
  {
    assert [5.0][1..] == [];
    assert CountAbove([5.0], 0.0) == 1;
  }
}
