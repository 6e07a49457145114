/** optimizePose, in both overloads: a first solver run from the initial
    pose, outlier removal at its result, a refining run without the
    outliers, and the decision whether the current frame takes the
    estimate or falls back to the identity motion. Pose, covariance and
    normal-equation types stay abstract; the geometry enters through the
    residual functions of an estimator. */
module PoseEstimation {
  import opened Numbers
  import opened Features
  import opened Frames
  import opened Residuals
  import opened Solvers
  import opened Outliers
  import Tracking

  /** The pose algebra the handler uses: the identity motion and the zero
      covariance, inverse_transformation, the matrix product, is_finite and
      the eigenvalues of a covariance. */
  datatype Algebra<!P, !C, !E> = Algebra(
    identity: P,
    zeroCov: C,
    inverse: P -> P,
    compose: (P, P) -> P,
    isFinite: P -> bool,
    eigenvalues: C -> E)

  /** The geometry of the current correspondence sets: the residual of the
      k-th point and line correspondence at a pose, the normal equations of
      one linearisation, the damping and solving of them, the covariance
      (the inverse of H) and the robust spread estimator. */
  datatype Estimator<!P, !C, !H> = Estimator(
    residualPt: (P, nat) -> Residual,
    residualLs: (P, nat) -> Residual,
    system: (P, Built) -> H,
    damp: (H, real) -> H,
    step: (H, P) -> Increment<P>,
    invert: H -> C,
    mad: seq<real> -> real)

  datatype PoseConfig = PoseConfig(
    minFeatures: int,
    useLevMarquardt: bool,
    maxIters: nat,
    maxItersRef: nat,
    maxOptimError: real,
    inlierK: real,
    build: BuildConfig,
    solver: Settings)

  /** Both solver runs take at least one iteration, and LM divides by lambdaK. */
  predicate ConfigReady(cfg: PoseConfig)
  {
    1 <= cfg.maxIters && 1 <= cfg.maxItersRef && (cfg.useLevMarquardt ==> cfg.solver.lambdaK != 0.0)
  }

  function AlgoOf(cfg: PoseConfig): (m: Method)
    ensures ConfigReady(cfg) ==> MethodReady(m, cfg.solver)
  {
    if cfg.useLevMarquardt then LevenbergMarquardt else GaussNewton
  }

  /** The values of DT_ and err that optimizePose reads without having
      written them when there are too few inliers to run the solver. */
  datatype Uninitialised<P> = Uninitialised(pose: P, err: Double)

  // ---------------------------------------------------------------------
  // The kernel the solvers run

  function PointResiduals<P, C, H>(e: Estimator<P, C, H>, pose: P, n: nat): (rs: seq<Residual>)
    ensures |rs| == n
  {
    seq(n, k requires 0 <= k < n => e.residualPt(pose, k))
  }

  function LineResiduals<P, C, H>(e: Estimator<P, C, H>, pose: P, n: nat): (rs: seq<Residual>)
    ensures |rs| == n
  {
    seq(n, k requires 0 <= k < n => e.residualLs(pose, k))
  }

  /** The residual norms removeOutliers computes at a pose. */
  function Norms(rs: seq<Residual>): (ns: seq<real>)
    ensures |ns| == |rs|
    ensures forall k :: 0 <= k < |rs| ==> ns[k] == rs[k].norm && 0.0 <= ns[k]
  {
    seq(|rs|, k requires 0 <= k < |rs| => rs[k].norm as real)
  }

  /** One linearisation: the builder at the pose, over the current flags. */
  function Evaluate<P, C, H>(e: Estimator<P, C, H>, cfg: BuildConfig, c: Corr, pose: P): (ev: Evaluation<Corr, H>)
    ensures SameShape(ev.state, c)
    ensures NeverRaised(c.pt, ev.state.pt) && NeverRaised(c.ls, ev.state.ls)
  {
    var b := Build(cfg, c, PointResiduals(e, pose, |c.pt|), LineResiduals(e, pose, |c.ls|), e.mad);
    Evaluation(b.flags, e.system(pose, b), b.err)
  }

  function KernelOf<P, C, H>(e: Estimator<P, C, H>, cfg: BuildConfig): Kernel<Corr, P, H>
  {
    Kernel((c, pose) => Evaluate(e, cfg, c, pose), e.damp, e.step)
  }

  /** The flags a run may leave behind: the same shape as the flags it
      started from, with no flag raised. */
  predicate Lowered(start: Corr, c: Corr)
  {
    SameShape(c, start) && NeverRaised(start.pt, c.pt) && NeverRaised(start.ls, c.ls)
  }

  /** A solver run (GN or LM as configured) from a pose over the given flags. */
  function Solve<P, C, H>(e: Estimator<P, C, H>, cfg: PoseConfig, c: Corr, pose: P, iters: nat): (o: Outcome<Corr, P, H>)
    requires ConfigReady(cfg) && 1 <= iters
    ensures Lowered(c, o.state)
    ensures 1 <= o.iters <= iters
  {
    var k := KernelOf(e, cfg.build);
    LinearisationLowers(e, cfg.build, c);
    StatePreserved(k, cfg.solver, AlgoOf(cfg), iters, 0, Start(cfg.solver, c, pose), s => Lowered(c, s));
    Optimize(k, cfg.solver, AlgoOf(cfg), iters, c, pose)
  }

  lemma LinearisationLowers<P, C, H>(e: Estimator<P, C, H>, cfg: BuildConfig, start: Corr)
    ensures forall s, p :: Lowered(start, s) ==> Lowered(start, KernelOf(e, cfg).evaluate(s, p).state)
  {
    forall s, p | Lowered(start, s)
      ensures Lowered(start, KernelOf(e, cfg).evaluate(s, p).state)
    {
      var s' := Evaluate(e, cfg, s, p).state;
      assert KernelOf(e, cfg).evaluate(s, p).state == s';
      assert NeverRaised(s.pt, s'.pt) && NeverRaised(s.ls, s'.ls);
    }
  }

  // ---------------------------------------------------------------------
  // The estimate

  /** How far optimizePose got: too few inliers to run the solver, a first
      run that did not give a finite pose, too few inliers left after
      outlier removal, or a refined estimate. */
  datatype Stage = BelowMinimum | Diverged | TooFewAfterOutliers | Refined

  /** The outcome of the solver part: the stage reached, the flags and
      counters it leaves, the first run's pose (DT_, the one the acceptance
      test looks at), the estimate (DT), its covariance and error. */
  datatype Estimate<P, C> = Estimate(
    stage: Stage, flags: Corr, counts: InlierCounts, firstPose: P, pose: P, cov: C, err: Double)

  /** removeOutliers at the first run's pose: its flags and counters, from
      the residual norms of the flags the run left. */
  function OutliersRemoved<P, C, H>(e: Estimator<P, C, H>, cfg: PoseConfig, first: Outcome<Corr, P, H>,
                                    n: InlierCounts): (Corr, InlierCounts)
  {
    var s := first.state;
    RemoveOutliers(s, n, Norms(PointResiduals(e, first.pose, |s.pt|)), Norms(LineResiduals(e, first.pose, |s.ls|)),
                   cfg.inlierK, e.mad)
  }

  /** The solver part of optimizePose. Outside the below-minimum case the
      first run starts from `init` with maxIters and DT_ is its pose; a
      diverged run keeps its flags and error; otherwise removeOutliers runs
      at that pose, and a refining run starts again from `init` (not from
      the first run's pose) with maxItersRef over the cleaned flags and
      yields the estimate, its covariance and the error. */
  function EstimatePose<P, C, E, H>(alg: Algebra<P, C, E>, e: Estimator<P, C, H>, cfg: PoseConfig,
                                    c: Corr, n: InlierCounts, init: P, junk: Uninitialised<P>): (est: Estimate<P, C>)
    requires ConfigReady(cfg)
    ensures Lowered(c, est.flags)
    ensures est.stage != BelowMinimum ==> est.firstPose == Solve(e, cfg, c, init, cfg.maxIters).pose
    ensures est.stage == Diverged ==>
      var first := Solve(e, cfg, c, init, cfg.maxIters);
      est.flags == first.state && est.err == first.err
    ensures est.stage == TooFewAfterOutliers ==>
      var first := Solve(e, cfg, c, init, cfg.maxIters);
      (est.flags, est.counts) == OutliersRemoved(e, cfg, first, n) && est.err == first.err
    ensures est.stage == Refined ==>
      var cleaned := OutliersRemoved(e, cfg, Solve(e, cfg, c, init, cfg.maxIters), n);
      var refined := Solve(e, cfg, cleaned.0, init, cfg.maxItersRef);
      && est.counts == cleaned.1 && est.flags == refined.state
      && est.pose == refined.pose && est.cov == e.invert(refined.sys) && est.err == refined.err
    ensures est.stage == BelowMinimum <==> n.total <= cfg.minFeatures
    ensures est.stage == BelowMinimum ==>
      est.flags == c && est.counts == n && est.firstPose == junk.pose && est.err == junk.err
    ensures est.stage == Diverged ==> est.counts == n && !alg.isFinite(est.firstPose)
    ensures est.stage == TooFewAfterOutliers || est.stage == Refined ==>
      && alg.isFinite(est.firstPose)
      && est.counts.points <= n.points && est.counts.lines <= n.lines
      && est.counts.total - est.counts.points - est.counts.lines == n.total - n.points - n.lines
    ensures est.stage == TooFewAfterOutliers ==> est.counts.total <= cfg.minFeatures
    ensures est.stage == Refined ==> cfg.minFeatures < est.counts.total
    ensures est.stage != Refined ==> est.pose == alg.identity && est.cov == alg.zeroCov
  {
    if n.total <= cfg.minFeatures then
      Estimate(BelowMinimum, c, n, junk.pose, alg.identity, alg.zeroCov, junk.err)
    else
      var first := Solve(e, cfg, c, init, cfg.maxIters);
      if !alg.isFinite(first.pose) then
        Estimate(Diverged, first.state, n, first.pose, alg.identity, alg.zeroCov, first.err)
      else
        var cleaned := OutliersRemoved(e, cfg, first, n);
        if cleaned.1.total <= cfg.minFeatures then
          Estimate(TooFewAfterOutliers, cleaned.0, cleaned.1, first.pose, alg.identity, alg.zeroCov, first.err)
        else
          var refined := Solve(e, cfg, cleaned.0, init, cfg.maxItersRef);
          Estimate(Refined, refined.state, cleaned.1, first.pose, refined.pose, e.invert(refined.sys), refined.err)
  }

  // ---------------------------------------------------------------------
  // Setting the estimated pose

  /** The acceptance test: the first run's pose is finite and the error is
      below maxOptimError (false on a NaN error). */
  predicate Accepts<P, C, E>(alg: Algebra<P, C, E>, cfg: PoseConfig, est: Estimate<P, C>)
  {
    alg.isFinite(est.firstPose) && Less(est.err, Finite(cfg.maxOptimError))
  }

  /** The current frame after optimizePose: with an accepted estimate the
      relative pose is the inverse of the estimate and the world pose is
      the previous world pose times it; otherwise the identity motion, the
      previous world pose, a zero covariance and the error -1. Either way
      the eigenvalues are those of the estimate's covariance. */
  function SetPose<P, C, E>(alg: Algebra<P, C, E>, cfg: PoseConfig, prevTfw: P, curr: Frame<P, C, E>,
                            est: Estimate<P, C>): (f: Frame<P, C, E>)
    ensures f.points == curr.points && f.lines == curr.lines
    ensures f.dtCovEig == alg.eigenvalues(est.cov)
    ensures Accepts(alg, cfg, est) ==>
      && f.tfw == alg.compose(prevTfw, f.dt)
      && f.dt == alg.inverse(est.pose) && f.dtCov == est.cov
      && Finite(f.errNorm) == est.err && f.errNorm < cfg.maxOptimError
    ensures !Accepts(alg, cfg, est) ==>
      f.tfw == prevTfw && f.dt == alg.identity && f.dtCov == alg.zeroCov && f.errNorm == -1.0
  {
    if Accepts(alg, cfg, est) then
      var dt := alg.inverse(est.pose);
      curr.(dt := dt, tfw := alg.compose(prevTfw, dt), dtCov := est.cov,
            dtCovEig := alg.eigenvalues(est.cov), errNorm := est.err.v)
    else
      curr.(dt := alg.identity, tfw := prevTfw, dtCov := alg.zeroCov,
            dtCovEig := alg.eigenvalues(est.cov), errNorm := -1.0)
  }

  /** What optimizePose installs in the current frame for an estimate: on
      acceptance the inverse of the estimate, the world pose chained
      through it, the estimate's covariance and error; on rejection the
      identity motion, the previous world pose, a zero covariance and -1.
      Either way the stored eigenvalues are those of the estimate's
      covariance, even when the stored covariance is the zero one. */
  ghost predicate Installed<P, C, E>(alg: Algebra<P, C, E>, cfg: PoseConfig, prevTfw: P, f: Frame<P, C, E>,
                               est: Estimate<P, C>)
  {
    && f.dtCovEig == alg.eigenvalues(est.cov)
    && if Accepts(alg, cfg, est) then
      && f.dt == alg.inverse(est.pose) && f.tfw == alg.compose(prevTfw, f.dt)
      && f.dtCov == est.cov && Finite(f.errNorm) == est.err
    else
      f.dt == alg.identity && f.tfw == prevTfw && f.dtCov == alg.zeroCov && f.errNorm == -1.0
  }

  /** With too few inliers to run the solver the covariance and its
      eigenvalues are those of the zero matrix, and the motion is the
      identity (rejected) or its inverse (accepted on the uninitialised DT_
      and err). */
  ghost predicate BelowMinimumInstalled<P, C, E>(alg: Algebra<P, C, E>, cfg: PoseConfig, prevTfw: P, f: Frame<P, C, E>,
                                           junk: Uninitialised<P>)
  {
    && f.dtCov == alg.zeroCov && f.dtCovEig == alg.eigenvalues(alg.zeroCov)
    && if alg.isFinite(junk.pose) && Less(junk.err, Finite(cfg.maxOptimError)) then
         f.dt == alg.inverse(alg.identity) && f.tfw == alg.compose(prevTfw, f.dt) && Finite(f.errNorm) == junk.err
       else
         f.dt == alg.identity && f.tfw == prevTfw && f.errNorm == -1.0
  }

  // ---------------------------------------------------------------------
  // The handler operations

  /** optimizePose from a given initial pose: estimate over the current
      flags and counters, store the flags back into the previous frame's
      features, and set the current frame's pose. Nothing else changes:
      previous features keep their IDs, geometry and observations, and the
      current features are untouched. */
  function OptimizePoseFrom<P, C, E, H>(h: Handler<P, C, E>, alg: Algebra<P, C, E>, e: Estimator<P, C, H>,
                                        cfg: PoseConfig, init: P, junk: Uninitialised<P>): (r: Handler<P, C, E>)
    requires Linked(h) && ConfigReady(cfg)
    ensures Linked(r) && Lowered(Flags(h), Flags(r))
    ensures r.matchedPt == h.matchedPt && r.matchedLs == h.matchedLs
    ensures r.maxIdxPt == h.maxIdxPt && r.maxIdxLs == h.maxIdxLs
    ensures r.prev.(points := h.prev.points, lines := h.prev.lines) == h.prev
    ensures r.curr.points == h.curr.points && r.curr.lines == h.curr.lines
    ensures r.counts.points <= h.counts.points && r.counts.lines <= h.counts.lines
    ensures r.counts.total - r.counts.points - r.counts.lines == h.counts.total - h.counts.points - h.counts.lines
    ensures FlagsOnlyDiffer(r.prev.points, h.prev.points) && FlagsOnlyDiffer(r.prev.lines, h.prev.lines)
    ensures forall i :: 0 <= i < |h.prev.points| && i !in h.matchedPt ==> r.prev.points[i] == h.prev.points[i]
    ensures forall i :: 0 <= i < |h.prev.lines| && i !in h.matchedLs ==> r.prev.lines[i] == h.prev.lines[i]
    ensures Installed(alg, cfg, h.prev.tfw, r.curr, EstimatePose(alg, e, cfg, Flags(h), h.counts, init, junk))
    ensures Accepts(alg, cfg, EstimatePose(alg, e, cfg, Flags(h), h.counts, init, junk)) ==>
      r.curr.errNorm < cfg.maxOptimError
    ensures h.counts.total <= cfg.minFeatures ==> BelowMinimumInstalled(alg, cfg, h.prev.tfw, r.curr, junk)
  {
    var est := EstimatePose(alg, e, cfg, Flags(h), h.counts, init, junk);
    var stored := StoreFlags(h, est.flags);
    stored.(counts := est.counts, curr := SetPose(alg, cfg, h.prev.tfw, h.curr, est))
  }

  /** optimizePose(): the previous frame's relative pose is the initial guess. */
  function OptimizePose<P, C, E, H>(h: Handler<P, C, E>, alg: Algebra<P, C, E>, e: Estimator<P, C, H>,
                                    cfg: PoseConfig, junk: Uninitialised<P>): (r: Handler<P, C, E>)
    requires Linked(h) && ConfigReady(cfg)
    ensures Linked(r) && Lowered(Flags(h), Flags(r))
    ensures r.matchedPt == h.matchedPt && r.matchedLs == h.matchedLs
    ensures r.prev.(points := h.prev.points, lines := h.prev.lines) == h.prev
    ensures r.maxIdxPt == h.maxIdxPt && r.maxIdxLs == h.maxIdxLs
    ensures r.curr.points == h.curr.points && r.curr.lines == h.curr.lines
    ensures r.counts.points <= h.counts.points && r.counts.lines <= h.counts.lines
    ensures r.counts.total - r.counts.points - r.counts.lines == h.counts.total - h.counts.points - h.counts.lines
    ensures FlagsOnlyDiffer(r.prev.points, h.prev.points) && FlagsOnlyDiffer(r.prev.lines, h.prev.lines)
    ensures forall i :: 0 <= i < |h.prev.points| && i !in h.matchedPt ==> r.prev.points[i] == h.prev.points[i]
    ensures forall i :: 0 <= i < |h.prev.lines| && i !in h.matchedLs ==> r.prev.lines[i] == h.prev.lines[i]
    ensures h.counts.total <= cfg.minFeatures ==> Flags(r) == Flags(h) && r.counts == h.counts
    ensures Installed(alg, cfg, h.prev.tfw, r.curr, EstimatePose(alg, e, cfg, Flags(h), h.counts, h.prev.dt, junk))
    ensures Accepts(alg, cfg, EstimatePose(alg, e, cfg, Flags(h), h.counts, h.prev.dt, junk)) ==>
      r.curr.errNorm < cfg.maxOptimError
    ensures h.counts.total <= cfg.minFeatures ==> BelowMinimumInstalled(alg, cfg, h.prev.tfw, r.curr, junk)
  {
    OptimizePoseFrom(h, alg, e, cfg, h.prev.dt, junk)
  }

  /** optimizePose(DT_ini): the caller supplies the initial guess. */
  function OptimizePoseWithInitial<P, C, E, H>(h: Handler<P, C, E>, alg: Algebra<P, C, E>, e: Estimator<P, C, H>,
                                               cfg: PoseConfig, dtIni: P, junk: Uninitialised<P>): (r: Handler<P, C, E>)
    requires Linked(h) && ConfigReady(cfg)
    ensures Linked(r) && Lowered(Flags(h), Flags(r))
    ensures r.matchedPt == h.matchedPt && r.matchedLs == h.matchedLs
    ensures r.prev.(points := h.prev.points, lines := h.prev.lines) == h.prev
    ensures r.maxIdxPt == h.maxIdxPt && r.maxIdxLs == h.maxIdxLs
    ensures r.curr.points == h.curr.points && r.curr.lines == h.curr.lines
    ensures r.counts.points <= h.counts.points && r.counts.lines <= h.counts.lines
    ensures r.counts.total - r.counts.points - r.counts.lines == h.counts.total - h.counts.points - h.counts.lines
    ensures FlagsOnlyDiffer(r.prev.points, h.prev.points) && FlagsOnlyDiffer(r.prev.lines, h.prev.lines)
    ensures forall i :: 0 <= i < |h.prev.points| && i !in h.matchedPt ==> r.prev.points[i] == h.prev.points[i]
    ensures forall i :: 0 <= i < |h.prev.lines| && i !in h.matchedLs ==> r.prev.lines[i] == h.prev.lines[i]
    ensures h.counts.total <= cfg.minFeatures ==> Flags(r) == Flags(h) && r.counts == h.counts
    ensures Installed(alg, cfg, h.prev.tfw, r.curr, EstimatePose(alg, e, cfg, Flags(h), h.counts, dtIni, junk))
    ensures Accepts(alg, cfg, EstimatePose(alg, e, cfg, Flags(h), h.counts, dtIni, junk)) ==>
      r.curr.errNorm < cfg.maxOptimError
    ensures h.counts.total <= cfg.minFeatures ==> BelowMinimumInstalled(alg, cfg, h.prev.tfw, r.curr, junk)
  {
    OptimizePoseFrom(h, alg, e, cfg, dtIni, junk)
  }

  // ---------------------------------------------------------------------
  // Properties

  /** When the counters start at the sizes of the correspondence sets, as
      tracking leaves them, they are upper bounds of the raised flags after
      the estimate, whatever the linearisations and removeOutliers lowered. */
  lemma EstimateCountersBoundFlags<P, C, E, H>(alg: Algebra<P, C, E>, e: Estimator<P, C, H>, cfg: PoseConfig,
                                               c: Corr, n: InlierCounts, init: P, junk: Uninitialised<P>)
    requires ConfigReady(cfg) && n.points == |c.pt| && n.lines == |c.ls|
    ensures var est := EstimatePose(alg, e, cfg, c, n, init, junk);
      CountTrue(est.flags.pt) <= est.counts.points && CountTrue(est.flags.ls) <= est.counts.lines
  {
    var est := EstimatePose(alg, e, cfg, c, n, init, junk);
    if n.total > cfg.minFeatures {
      var first := Solve(e, cfg, c, init, cfg.maxIters);
      var s := first.state;
      if !alg.isFinite(first.pose) {
        CountTrueNeverRaised(c.pt, s.pt);
        CountTrueNeverRaised(c.ls, s.ls);
      } else {
        var resPt, resLs := Norms(PointResiduals(e, first.pose, |s.pt|)), Norms(LineResiduals(e, first.pose, |s.ls|));
        var cleaned := RemoveOutliers(s, n, resPt, resLs, cfg.inlierK, e.mad);
        CountersBoundRaisedFlags(s, n, resPt, resLs, cfg.inlierK, e.mad);
        if cleaned.1.total > cfg.minFeatures {
          var refined := Solve(e, cfg, cleaned.0, init, cfg.maxItersRef);
          assert est.flags == refined.state;
          CountTrueNeverRaised(cleaned.0.pt, refined.state.pt);
          CountTrueNeverRaised(cleaned.0.ls, refined.state.ls);
        }
      }
    }
  }

  /** optimizePose keeps the counters upper bounds of the raised flags when
      they start at the sizes of the correspondence sets. */
  lemma OptimizePoseCountersBoundFlags<P, C, E, H>(h: Handler<P, C, E>, alg: Algebra<P, C, E>, e: Estimator<P, C, H>,
                                                   cfg: PoseConfig, init: P, junk: Uninitialised<P>)
    requires Linked(h) && ConfigReady(cfg)
    requires h.counts.points == |h.matchedPt| && h.counts.lines == |h.matchedLs|
    ensures var r := OptimizePoseFrom(h, alg, e, cfg, init, junk);
      CountTrue(Flags(r).pt) <= r.counts.points && CountTrue(Flags(r).ls) <= r.counts.lines
  {
    EstimateCountersBoundFlags(alg, e, cfg, Flags(h), h.counts, init, junk);
  }

  /** A tracking step followed by optimizePose: whatever the matches and
      the geometry, the counters end as upper bounds of the raised flags. */
  lemma TrackThenOptimizeBoundsFlags<P, C, E, H>(h: Handler<P, C, E>, tcfg: Tracking.TrackingConfig,
                                                 inp: Tracking.MatchInput, alg: Algebra<P, C, E>,
                                                 e: Estimator<P, C, H>, cfg: PoseConfig, junk: Uninitialised<P>)
    requires Tracking.InputFits(h, tcfg, inp) && ConfigReady(cfg)
    ensures var t := Tracking.F2FTracking(h, tcfg, inp);
      var r := OptimizePose(t, alg, e, cfg, junk);
      CountTrue(Flags(r).pt) <= r.counts.points && CountTrue(Flags(r).ls) <= r.counts.lines
  {
    var t := Tracking.F2FTracking(h, tcfg, inp);
    OptimizePoseCountersBoundFlags(t, alg, e, cfg, t.prev.dt, junk);
  }

  /** When outlier removal leaves too few inliers the estimate is the
      identity, and the acceptance test still looks only at the first
      run's pose and error: a low first error installs the identity motion
      with a zero covariance and that error. */
  lemma TooFewAfterOutliersAcceptsIdentity<P, C, E, H>(h: Handler<P, C, E>, alg: Algebra<P, C, E>,
                                                       e: Estimator<P, C, H>, cfg: PoseConfig, init: P,
                                                       junk: Uninitialised<P>)
    requires Linked(h) && ConfigReady(cfg)
    requires var est := EstimatePose(alg, e, cfg, Flags(h), h.counts, init, junk);
      est.stage == TooFewAfterOutliers && Less(est.err, Finite(cfg.maxOptimError))
    ensures var est := EstimatePose(alg, e, cfg, Flags(h), h.counts, init, junk);
      var r := OptimizePoseFrom(h, alg, e, cfg, init, junk);
      && r.curr.dt == alg.inverse(alg.identity) && r.curr.dtCov == alg.zeroCov
      && r.curr.tfw == alg.compose(h.prev.tfw, alg.inverse(alg.identity))
      && Finite(r.curr.errNorm) == est.err
  {
  }

  /** A first run that does not give a finite pose is always rejected. */
  lemma DivergedIsRejected<P, C, E, H>(h: Handler<P, C, E>, alg: Algebra<P, C, E>, e: Estimator<P, C, H>,
                                       cfg: PoseConfig, init: P, junk: Uninitialised<P>)
    requires Linked(h) && ConfigReady(cfg)
    requires EstimatePose(alg, e, cfg, Flags(h), h.counts, init, junk).stage == Diverged
    ensures var r := OptimizePoseFrom(h, alg, e, cfg, init, junk);
      r.curr.dt == alg.identity && r.curr.tfw == h.prev.tfw && r.curr.errNorm == -1.0
      && r.curr.dtCovEig == alg.eigenvalues(alg.zeroCov)
  {
  }
}
