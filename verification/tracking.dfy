/** Frame-to-frame tracking on the handler: the point and line acceptance
    tests, the per-modality association (skipped when the modality is
    disabled or either frame has no features of it), the inlier counters
    it leaves behind, and the roll-over of the current frame into the
    previous one. */
module Tracking {
  import opened Numbers
  import opened Features
  import opened Association
  import opened Frames

  /** The configuration the tracking step reads. `angDiff` is the source's
      angle-difference helper, which is not part of this model. */
  datatype TrackingConfig = TrackingConfig(
    hasPoints: bool,
    hasLines: bool,
    bestLRMatches: bool,
    minRatio12P: real,
    maxF2FDisp: real,
    imageWidth: real,
    descThL: real,
    maxF2FAngDiff: real,
    f2fFlowTh: real,
    angDiff: (real, real) -> real)

  /** The forward k=2 match list (sorted by query index) and the best
      reverse match of every current feature. */
  datatype KnnLists = KnnLists(forward: seq<KnnMatch>, backward: seq<int>)

  /** The descriptor matcher's output for one tracking step, plus the
      line-descriptor spread statistic computed from the forward line list. */
  datatype MatchInput = MatchInput(points: KnnLists, lines: KnnLists, lineDescTh: real)

  // ---------------------------------------------------------------------
  // Point test

  /** `best / second > th` in double arithmetic: a zero second distance
      gives +inf (passes) for a positive best distance and NaN (fails) for
      a zero one. */
  predicate PointRatioPasses(best: real, second: real, th: real)
  {
    if second == 0.0 then best > 0.0 else best / second > th
  }

  /** The point test: the ratio test and the left and right frame-to-frame
      displacement bounds. */
  predicate PointGate(cfg: TrackingConfig, e: KnnMatch, p: PointGeom, c: PointGeom)
  {
    var dispTh := cfg.maxF2FDisp * cfg.imageWidth;
    var dispL := Abs(c.pl.u - p.pl.u);
    var dispR := Abs((c.pl.u - c.disp) - (p.pl.u - p.disp));
    PointRatioPasses(e.best, e.second, cfg.minRatio12P) && dispL <= dispTh && dispR <= dispTh
  }

  function PointMatcher(cfg: TrackingConfig, back: seq<int>): Matcher<PointGeom, Pixel>
  {
    Matcher(cfg.bestLRMatches, back,
            (e: KnnMatch, p: PointGeom, c: PointGeom) => PointGate(cfg, e, p, c),
            (g: PointGeom) => g.pl)
  }

  // ---------------------------------------------------------------------
  // Line test

  /** `sqrt(dx^2 + dy^2) < bound`, stated on squares. */
  predicate FlowBelow(dx: real, dy: real, bound: real)
  {
    0.0 < bound && dx * dx + dy * dy < bound * bound
  }

  /** FlowBelow is the Euclidean-norm bound: for the non-negative `n` whose
      square is dx^2 + dy^2, it holds exactly when n < bound. */
  lemma FlowBelowIsNormBound(dx: real, dy: real, n: real, bound: real)
    requires 0.0 <= n && n * n == dx * dx + dy * dy
    ensures FlowBelow(dx, dy, bound) <==> n < bound
  {
    if 0.0 < bound {
      SquareMonotone(n, bound);
    }
  }

  lemma SquareMonotone(a: real, b: real)
    requires 0.0 <= a && 0.0 < b
    ensures a < b <==> a * a < b * b
  {
    var aa, ab, bb := a * a, a * b, b * b;
    if a < b {
      assert aa <= ab < bb;
    } else {
      assert bb <= ab <= aa;
    }
  }

  /** The line test: the descriptor-gap test against the scaled spread
      statistic, the orientation bound, and the midpoint-flow bound on the
      sums of the endpoints. */
  predicate LineGate(cfg: TrackingConfig, descTh: real, e: KnnMatch, p: LineGeom, c: LineGeom)
  {
    var dx := (c.spl.u + c.epl.u) - (p.spl.u + p.epl.u);
    var dy := (c.spl.v + c.epl.v) - (p.spl.v + p.epl.v);
    && e.second - e.best > descTh * cfg.descThL
    && cfg.angDiff(p.angle, c.angle) < cfg.maxF2FAngDiff
    && FlowBelow(dx, dy, 2.0 * cfg.f2fFlowTh)
  }

  function LineMatcher(cfg: TrackingConfig, back: seq<int>, descTh: real): Matcher<LineGeom, LineObs>
  {
    Matcher(cfg.bestLRMatches, back,
            (e: KnnMatch, p: LineGeom, c: LineGeom) => LineGate(cfg, descTh, e, p, c),
            (g: LineGeom) => LineObs(g.spl, g.epl, g.le))
  }

  // ---------------------------------------------------------------------
  // Tracking step

  predicate PointsActive<P, C, E>(h: Handler<P, C, E>, cfg: TrackingConfig)
  {
    cfg.hasPoints && |h.curr.points| != 0 && |h.prev.points| != 0
  }

  predicate LinesActive<P, C, E>(h: Handler<P, C, E>, cfg: TrackingConfig)
  {
    cfg.hasLines && |h.curr.lines| != 0 && |h.prev.lines| != 0
  }

  /** The match lists address the two frames of every modality that runs. */
  predicate InputFits<P, C, E>(h: Handler<P, C, E>, cfg: TrackingConfig, inp: MatchInput)
  {
    && (PointsActive(h, cfg) ==>
          Fits(inp.points.forward, |h.prev.points|, |h.curr.points|, PointMatcher(cfg, inp.points.backward)))
    && (LinesActive(h, cfg) ==>
          Fits(inp.lines.forward, |h.prev.lines|, |h.curr.lines|, LineMatcher(cfg, inp.lines.backward, inp.lineDescTh)))
  }

  /** One modality: associate when active, otherwise leave everything as it
      is with an empty correspondence set. */
  function TrackModality<G, O>(active: bool, prev: seq<Feature<G, O>>, curr: seq<Feature<G, O>>, counter: int,
                               es: seq<KnnMatch>, m: Matcher<G, O>): (r: Assoc<G, O>)
    requires active ==> Fits(es, |prev|, |curr|, m)
    ensures IndicesBelow(r.matched, |r.prev|) && Distinct(r.matched) && AllTrue(InlierFlags(r.prev, r.matched))
    ensures |r.prev| == |prev| && |r.curr| == |curr|
    ensures SameGeometry(r.prev, prev) && SameGeometry(r.curr, curr)
    ensures IdsOnlyDiffer(r.curr, curr) && forall i :: 0 <= i < |prev| ==> r.prev[i].idx == prev[i].idx
    ensures !active ==> r == Assoc(prev, curr, [], counter)
    ensures active ==> forall i :: 0 <= i < |prev| && i !in r.matched ==> r.prev[i] == prev[i]
    ensures active ==> r.matched == AcceptedQueries(es, prev, curr, m)
    ensures active ==> counter + RejectedCount(es, prev, curr, m) <= r.counter
    ensures active ==> Observed(es, prev, curr, m, r.prev) && IdsAssigned(es, prev, curr, m, counter, r.curr, r.counter)
    ensures active && 0 <= counter ==> NoneUnassigned(r.curr)
  {
    if active then
      AssociateFlagsMatchedInliers(prev, curr, counter, es, m);
      Associate(prev, curr, counter, es, m)
    else
      Assoc(prev, curr, [], counter)
  }

  /** f2fTracking: both correspondence sets are rebuilt from scratch; an
      inactive modality ends with an empty set and untouched features and
      counter; in an active one every accepted previous feature is an
      inlier observing its current feature, and every current feature
      inherits the ID of the previous feature its deciding entry accepts or
      draws a fresh one from the modality's counter; the three counters
      equal the sizes of the sets. Feature geometry, every unmatched
      previous feature, the poses and the other frame fields are untouched. */
  function F2FTracking<P, C, E>(h: Handler<P, C, E>, cfg: TrackingConfig, inp: MatchInput): (r: Handler<P, C, E>)
    requires InputFits(h, cfg, inp)
    ensures Linked(r) && CountsMatchFlags(r)
    ensures AllTrue(Flags(r).pt) && AllTrue(Flags(r).ls)
    ensures r.counts.points == |r.matchedPt| && r.counts.lines == |r.matchedLs|
    ensures r.prev.(points := h.prev.points, lines := h.prev.lines) == h.prev
    ensures r.curr.(points := h.curr.points, lines := h.curr.lines) == h.curr
    ensures |r.prev.points| == |h.prev.points| && |r.curr.points| == |h.curr.points|
    ensures |r.prev.lines| == |h.prev.lines| && |r.curr.lines| == |h.curr.lines|
    ensures PointsActive(h, cfg) ==>
      r.matchedPt == AcceptedQueries(inp.points.forward, h.prev.points, h.curr.points, PointMatcher(cfg, inp.points.backward))
    ensures LinesActive(h, cfg) ==>
      r.matchedLs == AcceptedQueries(inp.lines.forward, h.prev.lines, h.curr.lines,
                                     LineMatcher(cfg, inp.lines.backward, inp.lineDescTh))
    ensures !PointsActive(h, cfg) ==>
      r.matchedPt == [] && r.prev.points == h.prev.points && r.curr.points == h.curr.points && r.maxIdxPt == h.maxIdxPt
    ensures !LinesActive(h, cfg) ==>
      r.matchedLs == [] && r.prev.lines == h.prev.lines && r.curr.lines == h.curr.lines && r.maxIdxLs == h.maxIdxLs
    ensures SameGeometry(r.prev.points, h.prev.points) && SameGeometry(r.curr.points, h.curr.points)
    ensures SameGeometry(r.prev.lines, h.prev.lines) && SameGeometry(r.curr.lines, h.curr.lines)
    ensures IdsOnlyDiffer(r.curr.points, h.curr.points) && IdsOnlyDiffer(r.curr.lines, h.curr.lines)
    ensures forall i :: 0 <= i < |h.prev.points| ==> r.prev.points[i].idx == h.prev.points[i].idx
    ensures forall i :: 0 <= i < |h.prev.lines| ==> r.prev.lines[i].idx == h.prev.lines[i].idx
    ensures PointsActive(h, cfg) ==>
      forall i :: 0 <= i < |h.prev.points| && i !in r.matchedPt ==> r.prev.points[i] == h.prev.points[i]
    ensures LinesActive(h, cfg) ==>
      forall i :: 0 <= i < |h.prev.lines| && i !in r.matchedLs ==> r.prev.lines[i] == h.prev.lines[i]
    ensures PointsActive(h, cfg) ==>
      var m := PointMatcher(cfg, inp.points.backward);
      && Observed(inp.points.forward, h.prev.points, h.curr.points, m, r.prev.points)
      && IdsAssigned(inp.points.forward, h.prev.points, h.curr.points, m, h.maxIdxPt, r.curr.points, r.maxIdxPt)
    ensures LinesActive(h, cfg) ==>
      var m := LineMatcher(cfg, inp.lines.backward, inp.lineDescTh);
      && Observed(inp.lines.forward, h.prev.lines, h.curr.lines, m, r.prev.lines)
      && IdsAssigned(inp.lines.forward, h.prev.lines, h.curr.lines, m, h.maxIdxLs, r.curr.lines, r.maxIdxLs)
    ensures h.maxIdxPt <= r.maxIdxPt && h.maxIdxLs <= r.maxIdxLs
    ensures PointsActive(h, cfg) && 0 <= h.maxIdxPt ==> NoneUnassigned(r.curr.points)
    ensures LinesActive(h, cfg) && 0 <= h.maxIdxLs ==> NoneUnassigned(r.curr.lines)
  {
    var pts := TrackModality(PointsActive(h, cfg), h.prev.points, h.curr.points, h.maxIdxPt,
                             inp.points.forward, PointMatcher(cfg, inp.points.backward));
    var lns := TrackModality(LinesActive(h, cfg), h.prev.lines, h.curr.lines, h.maxIdxLs,
                             inp.lines.forward, LineMatcher(cfg, inp.lines.backward, inp.lineDescTh));
    CountTrueAll(InlierFlags(pts.prev, pts.matched));
    CountTrueAll(InlierFlags(lns.prev, lns.matched));
    Handler(h.prev.(points := pts.prev, lines := lns.prev),
            h.curr.(points := pts.curr, lines := lns.curr),
            pts.matched, lns.matched, pts.counter, lns.counter,
            InlierCounts(|pts.matched| + |lns.matched|, |pts.matched|, |lns.matched|))
  }

  /** updateFrame: the current frame becomes the previous one and both
      correspondence sets are emptied; the next frame is installed by the
      next tracking step. */
  function UpdateFrame<P, C, E>(h: Handler<P, C, E>): (r: Handler<P, C, E>)
    ensures r.prev == h.curr && r.matchedPt == [] && r.matchedLs == []
    ensures r.maxIdxPt == h.maxIdxPt && r.maxIdxLs == h.maxIdxLs && r.counts == h.counts
    ensures Linked(r) && Flags(r) == Corr([], [])
  {
    h.(prev := h.curr, matchedPt := [], matchedLs := [])
  }

  // ---------------------------------------------------------------------
  // Track IDs across cycles

  /** The previous frame obeys the track-ID discipline against both counters. */
  predicate IdDiscipline<P, C, E>(h: Handler<P, C, E>)
  {
    TrackIds(h.prev.points, h.maxIdxPt) && TrackIds(h.prev.lines, h.maxIdxLs)
  }

  /** A freshly extracted frame: no feature carries an ID yet. */
  predicate FreshCurrent<P, C, E>(h: Handler<P, C, E>)
  {
    AllUnassigned(h.curr.points) && AllUnassigned(h.curr.lines)
  }

  lemma ModalityKeepsTrackIds<G, O>(active: bool, prev: seq<Feature<G, O>>, curr: seq<Feature<G, O>>, counter: int,
                                    es: seq<KnnMatch>, m: Matcher<G, O>)
    requires active ==> Fits(es, |prev|, |curr|, m)
    requires TrackIds(prev, counter) && AllUnassigned(curr)
    ensures TrackIds(TrackModality(active, prev, curr, counter, es, m).curr,
                     TrackModality(active, prev, curr, counter, es, m).counter)
  {
    if active {
      AssociateKeepsTrackIds(prev, curr, counter, es, m);
    }
  }

  /** One tracking cycle followed by the frame roll-over preserves the
      track-ID discipline: the new previous frame's IDs are distinct and
      all drawn from below the advanced counters. */
  lemma CycleKeepsIdDiscipline<P, C, E>(h: Handler<P, C, E>, cfg: TrackingConfig, inp: MatchInput)
    requires InputFits(h, cfg, inp) && IdDiscipline(h) && FreshCurrent(h)
    ensures IdDiscipline(UpdateFrame(F2FTracking(h, cfg, inp)))
  {
    ModalityKeepsTrackIds(PointsActive(h, cfg), h.prev.points, h.curr.points, h.maxIdxPt,
                          inp.points.forward, PointMatcher(cfg, inp.points.backward));
    ModalityKeepsTrackIds(LinesActive(h, cfg), h.prev.lines, h.curr.lines, h.maxIdxLs,
                          inp.lines.forward, LineMatcher(cfg, inp.lines.backward, inp.lineDescTh));
  }

  /** The ID sweep runs only inside an active modality: when the previous
      frame has no points, the current frame's points keep the unassigned
      ID through tracking and into the next cycle's previous frame. */
  lemma SkippedModalityKeepsUnassigned<P, C, E>(h: Handler<P, C, E>, cfg: TrackingConfig, inp: MatchInput)
    requires InputFits(h, cfg, inp) && |h.prev.points| == 0 && AllUnassigned(h.curr.points)
    ensures AllUnassigned(UpdateFrame(F2FTracking(h, cfg, inp)).prev.points)
  {
  }
}
