/** The frame handler's state: the rolling pair of frames, the two
    correspondence sets (indices of previous-frame features), the two
    monotone ID counters and the three inlier counters. Poses (P),
    covariances (C) and eigenvalue vectors (E) are abstract. */
module Frames {
  import opened Numbers
  import opened Features

  datatype Frame<P, C, E> = Frame(
    points: seq<PointFeature>,
    lines: seq<LineFeature>,
    dt: P,          // relative pose to the previous frame
    tfw: P,         // accumulated pose in the world
    dtCov: C,
    dtCovEig: E,
    errNorm: real)  // normalised error, or -1.0 when the estimate was rejected

  /** n_inliers, n_inliers_pt and n_inliers_ls. */
  datatype InlierCounts = InlierCounts(total: int, points: int, lines: int)

  /** The inlier flags of the two correspondence sets, in set order. */
  datatype Corr = Corr(pt: seq<bool>, ls: seq<bool>)

  predicate SameShape(a: Corr, b: Corr)
  {
    |a.pt| == |b.pt| && |a.ls| == |b.ls|
  }

  datatype Handler<P, C, E> = Handler(
    prev: Frame<P, C, E>,
    curr: Frame<P, C, E>,
    matchedPt: seq<nat>,
    matchedLs: seq<nat>,
    maxIdxPt: int,
    maxIdxLs: int,
    counts: InlierCounts)

  /** The correspondence sets refer to previous-frame features, each at most once. */
  predicate Linked<P, C, E>(h: Handler<P, C, E>)
  {
    && IndicesBelow(h.matchedPt, |h.prev.points|) && Distinct(h.matchedPt)
    && IndicesBelow(h.matchedLs, |h.prev.lines|) && Distinct(h.matchedLs)
  }

  /** The flags of the features the correspondence sets refer to. */
  function Flags<P, C, E>(h: Handler<P, C, E>): (c: Corr)
    requires Linked(h)
    ensures |c.pt| == |h.matchedPt| && |c.ls| == |h.matchedLs|
  {
    Corr(InlierFlags(h.prev.points, h.matchedPt), InlierFlags(h.prev.lines, h.matchedLs))
  }

  /** Store flags back into the previous-frame features: only the flags
      of the features the sets refer to change; IDs, geometry,
      observations, the other previous-frame fields, the current frame,
      the counters and the track-ID counters are kept. */
  function StoreFlags<P, C, E>(h: Handler<P, C, E>, c: Corr): (r: Handler<P, C, E>)
    requires Linked(h) && SameShape(c, Flags(h))
    ensures Linked(r) && Flags(r) == c
    ensures r.matchedPt == h.matchedPt && r.matchedLs == h.matchedLs
    ensures r.curr == h.curr && r.counts == h.counts
    ensures r.maxIdxPt == h.maxIdxPt && r.maxIdxLs == h.maxIdxLs
    ensures r.prev.(points := h.prev.points, lines := h.prev.lines) == h.prev
    ensures FlagsOnlyDiffer(r.prev.points, h.prev.points) && FlagsOnlyDiffer(r.prev.lines, h.prev.lines)
    ensures forall i :: 0 <= i < |h.prev.points| && i !in h.matchedPt ==> r.prev.points[i] == h.prev.points[i]
    ensures forall i :: 0 <= i < |h.prev.lines| && i !in h.matchedLs ==> r.prev.lines[i] == h.prev.lines[i]
  {
    ReadAfterWrite(h.prev.points, h.matchedPt, c.pt);
    ReadAfterWrite(h.prev.lines, h.matchedLs, c.ls);
    h.(prev := h.prev.(points := WriteFlags(h.prev.points, h.matchedPt, c.pt),
                       lines := WriteFlags(h.prev.lines, h.matchedLs, c.ls)))
  }

  /** The counters agree with the flags, as they do right after association. */
  predicate CountsMatchFlags<P, C, E>(h: Handler<P, C, E>)
    requires Linked(h)
  {
    && h.counts.points == CountTrue(Flags(h).pt)
    && h.counts.lines == CountTrue(Flags(h).ls)
    && h.counts.total == h.counts.points + h.counts.lines
  }
}
