# StVO-PL stereo frame handler — a Dafny model

This project models the core of `StereoFrameHandler`, the frame-to-frame
part of the StVO-PL stereo visual odometry. One processing cycle has these steps:

- **f2fTracking** associates the point and line features of the previous frame with those of the current frame:
  - mutual best match, ratio test and geometric gates;
  - correspondence sets that refer to previous-frame features;
  - persistent track IDs drawn from two monotone counters;
  - three inlier counters.
- **optimizePose** estimates the relative motion in three stages:
  - a first Gauss-Newton or Levenberg-Marquardt run from an initial pose;
  - **removeOutliers** at the first run's pose;
  - a refining run.

  Each linearisation goes through **optimizeFunctions_nonweighted** or **optimizeFunctions_uncweighted**. These decide which correspondences contribute, lower the flags of the others, weight the error terms and balance points against lines. optimizePose then either accepts the estimate or falls back to the identity motion.
- **updateFrame** rolls the current frame into the previous one.

The model is functional:

- Handler, frames and features are immutable datatypes.
- Correspondence sets are sequences of indices into the previous frame's features.
- Every operation is a function from the old handler to the new one.
- Poses, covariances and normal equations are type parameters. The geometry (projection, Jacobians, LDLT solve, exponential map, eigenvalues) arrives through function-typed parameters.
- Doubles are `real`. `Numbers.Double` adds the NaN that the source can produce as 0/0. Every comparison on it is false when either side is NaN, as in IEEE arithmetic.

Modules, leaf first:

| module | file | models |
|---|---|---|
| `Numbers` | numbers.dfy | doubles with NaN, the comparisons the source makes, counting |
| `Features` | features.dfy | features, k=2 matches, the track-ID discipline, flag read/write through a correspondence set |
| `Association` | association.dfy | one modality's entry loop and ID sweep, written once for points and lines |
| `Frames` | frames.dfy | frames, handler state, inlier counters |
| `Tracking` | tracking.dfy | the point and line tests, f2fTracking, updateFrame, the ID discipline across cycles |
| `Outliers` | outliers.dfy | removeOutliers |
| `Residuals` | residuals.dfy | the bookkeeping of both optimizeFunctions variants |
| `Solvers` | solvers.dfy | the Gauss-Newton and Levenberg-Marquardt loops over an abstract kernel |
| `PoseEstimation` | pose.dfy | both optimizePose overloads |

Where the code and the design description of the system differ, the model follows the code:

- **ID sweep.** The sweep that gives unmatched current features a fresh ID sits inside the per-modality `if`. A skipped modality leaves its current features unassigned, with ID -1.
- **Inherited IDs.** A rejected entry overwrites its current feature's ID even when an earlier entry gave that feature an inherited ID.
- **Counters and flags.** The design promises that the inlier counters always equal the raised flags. The code does not keep that promise. The builder lowers flags without touching the counters. removeOutliers decrements the counters for every residual above the threshold, even when that entry's flag is already down. The model proves that the counters stay upper bounds of the raised flags when they start at the sizes of the sets. It also proves that they are exact from a clean start. A concrete state shows a counter going negative, which takes a second removeOutliers over the same correspondence sets.
- **Refinement start.** The refining run starts from the initial pose, not from the first run's result.
- **Acceptance test.** The test looks at the first run's pose `DT_` and at the error of the last run. As a result, when outlier removal leaves too few inliers, a low first-run error installs the identity motion with a zero covariance.
- **Rejected frames.** On rejection the frame's eigenvalues are those of the local covariance, which may be the refined one. The stored covariance is zero.
- **Degenerate error.** When nothing contributes, the normalised error is 0/0 = NaN. A robust spread of exactly zero under scaling (possible only with a negative homogTh) makes at least one balance factor NaN, the other +inf or NaN. The error is NaN either way.
- **Uninitialised reads.** With too few inliers to run the solver, optimizePose reads `DT_` and `err` uninitialised. The model takes those values as arbitrary parameters (`PoseEstimation.Uninitialised`).

## Model

| member | source | states |
|---|---|---|
| `Association.Associate` | src/stereoFrameHandler.cpp:88-128 | the correspondence set is exactly the previous indices of the accepted entries in list order. Each accepted entry's previous feature is an inlier recording what it observes of its current feature, and no other previous feature changes. No previous feature's ID changes, and current features change only their IDs (flags and observations kept). The last entry targeting a current feature decides its ID. If that entry is accepted and its previous feature's ID is assigned, the current feature inherits that ID. A feature no entry targets keeps its own ID, if it has one. Every other feature gets a fresh ID in [counter, counter'). The counter grows by at least one per rejected entry. With a non-negative counter, no current feature stays unassigned |
| `Association.RunIds` | src/stereoFrameHandler.cpp:88-117 | after the entry loop, a current feature carries the previous feature's ID when its last targeting entry is accepted, an ID in [counter, counter') when that entry is rejected, and its own ID when no entry targets it |
| `Association.RunMarksAccepted` | src/stereoFrameHandler.cpp:105-110 | every accepted entry leaves its previous feature flagged inlier, with the observation of the entry's current feature |
| `Association.AcceptedQueriesIncreasing` | src/stereoFrameHandler.cpp:83-110 | the correspondence set is strictly increasing and in range, so it refers to each previous feature at most once |
| `Association.AssociateFlagsMatchedInliers` | src/stereoFrameHandler.cpp:105-110 | every feature of the correspondence set is flagged inlier after association |
| `Association.MutualAcceptedDistinctTargets` | src/stereoFrameHandler.cpp:91-105 | with mutual checking on, an accepted entry is its current feature's best reverse match, and no two accepted entries share a current feature |
| `Association.SweepKeepsTrackIds` | src/stereoFrameHandler.cpp:120-128 | the sweep leaves no feature unassigned, each feature that had no ID gets a fresh one at least the old counter and below the new one, and the IDs are pairwise distinct |
| `Association.AssociateKeepsTrackIds` | src/stereoFrameHandler.cpp:105-128 | from a previous frame with distinct IDs below the counter and a fresh current frame, the current frame ends with distinct assigned IDs below the advanced counter |
| `Association.AssociateCounterGrowth` | src/stereoFrameHandler.cpp:113-128 | from a non-negative counter, the counter advances by exactly the rejected entries plus the current features the loop leaves without an ID. Those are the untargeted features that had none, and the features whose accepted entry handed over an unassigned ID. For a fresh current frame and a previous frame with only assigned IDs, they are exactly the untargeted features |
| `Association.LaterRejectionOverwritesInheritedId` | src/stereoFrameHandler.cpp:111-116 | a concrete list where a later rejected entry replaces the ID a matched current feature had inherited |
| `Tracking.FlowBelowIsNormBound` | src/stereoFrameHandler.cpp:186-188 | the squared form of the line-flow gate holds exactly when the Euclidean norm of the flow is below twice f2fFlowTh |
| `Tracking.F2FTracking` | src/stereoFrameHandler.cpp:47-221 | both sets are rebuilt. An active modality's set is the accepted entries, each previous feature observing its accepted current feature. Each current feature inherits an ID or draws a fresh one as `Associate` states. An inactive modality's set is empty, with features and counter untouched. All matched flags are raised. The counters equal the set sizes and agree with the flags. ID counters never decrease. No feature's geometry changes, and an unmatched previous feature is left exactly as it was. Previous features keep their IDs, and current features change only their IDs |
| `Tracking.UpdateFrame` | src/stereoFrameHandler.cpp:233-239 | the current frame becomes the previous one and both sets are empty; ID and inlier counters are kept |
| `Tracking.CycleKeepsIdDiscipline` | src/stereoFrameHandler.cpp:105-128 | tracking followed by the roll-over preserves the track-ID discipline of the previous frame against both counters |
| `Tracking.SkippedModalityKeepsUnassigned` | src/stereoFrameHandler.cpp:52-130 | when the previous frame has no points, the current points keep the unassigned ID into the next cycle |
| `Frames.StoreFlags` | src/stereoFrameHandler.cpp:583-584 | flags written through the correspondence sets read back as written. Only those features' flags change: IDs, geometry and observations are kept, as are the other previous-frame fields, sets, counters, track-ID counters and current frame |
| `Outliers.RemoveOutliers` | src/stereoFrameHandler.cpp:471-527 | an entry keeps its flag exactly when it had it and its residual is not above inlierK times the robust spread; each counter drops by the number of residuals above its threshold; no flag is raised |
| `Outliers.FilterShiftsGap` | src/stereoFrameHandler.cpp:508-516 | the gap between counter and raised flags shifts by exactly the already-lowered entries above the threshold |
| `Outliers.CleanStartKeepsCountsExact` | src/stereoFrameHandler.cpp:508-526 | from all flags raised and counters equal to the set sizes, the counters afterwards equal the raised flags |
| `Outliers.CountersBoundRaisedFlags` | src/stereoFrameHandler.cpp:508-526 | from counters equal to the set sizes, the counters afterwards bound the raised flags from above, whatever was lowered before |
| `Outliers.StaleFlagDecrementedAgain` | src/stereoFrameHandler.cpp:510-515 | a lowered flag above the threshold is counted off again: a zero counter ends at -1. In one tracking and optimizePose cycle, removeOutliers runs once, after tracking has set the counters to the set sizes, so the counter cannot go below zero there. Reaching this state takes a second removeOutliers over the same sets |
| `Residuals.RobustWeightAntitone` | src/stereoFrameHandler.cpp:571-574 | the robust weight never grows with the residual |
| `Residuals.Build` | src/stereoFrameHandler.cpp:529-684 | a flag stays raised exactly when it was raised and its residual is above homogTh (lines in uncertainty mode also need finite variances); the counts are the raised flags; the error is NaN exactly when nothing contributes or the balance is degenerate |
| `Residuals.BuildStable` | src/stereoFrameHandler.cpp:543-586 | linearising again at the same pose with the flags the first pass left changes nothing |
| `Residuals.BalanceOf` | src/stereoFrameHandler.cpp:663-679 | the plain sum is used exactly when scaling is off, a modality is disabled or a spread is not above homogTh. Otherwise the factors are the total spread over each modality's spread, or degenerate when a spread is zero |
| `Residuals.BuildErrorValue` | src/stereoFrameHandler.cpp:662-682 | with n contributions, the error is the sum of the contributing terms over n when scaling does not apply. When it does, the error is the total spread times the sum over modalities of each modality's error divided by its spread, all over n. A zero spread under scaling gives NaN |
| `Residuals.ScaledBalanceNormalisesSpreads` | src/stereoFrameHandler.cpp:663-673 | the balance factors are 1 + sL/sP and 1 + sP/sL, their reciprocals sum to one, and the balanced error is each modality's error over its spread times the total spread |
| `Residuals.DegenerateResidualsGiveNaN` | src/stereoFrameHandler.cpp:553-584 | when no residual exceeds homogTh every flag is lowered and the error is NaN |
| `Residuals.NonWeightedErrorNonNegative` | src/stereoFrameHandler.cpp:662-682 | without uncertainty weighting, and with a non-negative homogTh, a finite error is never negative |
| `Solvers.Body` | src/stereoFrameHandler.cpp:395-468 | one iteration stops on ErrorSettled exactly when the error is within minErrorChange of the previous one, and on ErrorFloor exactly when it then lies below minError; both keep pose and damping. After a step it stops on StepVanished exactly when the increment's norm is below epsilon. GN always takes the step. LM keeps the pose and divides the damping by lambdaK exactly when the error exceeds the previous one, and otherwise takes the step and multiplies the damping. The error handed on is the new one. An error exit hands out the undamped normal equations; a step exit hands out the ones the step was solved from |
| `Solvers.Iterate` | src/stereoFrameHandler.cpp:395-427 | the run takes between one and maxIters linearisations and the budget exit uses all of them; an error-floor exit has its error below minError and an exit on the step or the budget does not; GN keeps the damping; each LM iteration that passes the error tests divides or multiplies the damping exactly once |
| `Solvers.GaussNewtonOptimization` | src/stereoFrameHandler.cpp:390-429 | at most maxIters linearisations and no damping change |
| `Solvers.LevMarquardtOptimization` | src/stereoFrameHandler.cpp:431-469 | every iteration that passes the error tests divides or multiplies the damping exactly once |
| `Solvers.OptimizeLoop` | src/stereoFrameHandler.cpp:437-468 | the counted loop with its breaks computes exactly the recursive definition |
| `Solvers.DampingSchedule` | src/stereoFrameHandler.cpp:452-459 | the final damping is the initial one times lambdaK per accepted step and divided by it per rejected step |
| `Solvers.LevMarquardtDampingSchedule` | src/stereoFrameHandler.cpp:437-459 | over a whole LM run the damping is lambdaLM times lambdaK to the accepted minus rejected steps |
| `Solvers.DampingStaysPositive` | src/stereoFrameHandler.cpp:452-459 | a positive damping stays positive for a positive lambdaK |
| `Solvers.GaussNewtonIgnoresDamping` | src/stereoFrameHandler.cpp:395-427 | a GN run does not depend on the damping kernel, lambdaLM, lambdaK or the damping carried in |
| `Solvers.StatePreserved` | src/stereoFrameHandler.cpp:397-401 | a property of the inlier flags that every linearisation preserves holds after the run |
| `Solvers.FirstErrorExitKeepsPose` | src/stereoFrameHandler.cpp:402-404 | when the first linearisation meets an error test, the pose comes back untouched after one iteration |
| `PoseEstimation.Solve` | src/stereoFrameHandler.cpp:261-264 | a solver run only lowers inlier flags and keeps the shape of the correspondence sets |
| `PoseEstimation.EstimatePose` | src/stereoFrameHandler.cpp:257-293 | the solver runs only above minFeatures. DT_ is the pose of the first run, from the initial pose with maxIters. A non-finite first pose skips outlier removal and keeps that run's flags and error. Otherwise removeOutliers runs at DT_. When enough inliers remain, the refining run starts again from the initial pose, not from DT_, with maxItersRef over the cleaned flags, and gives the estimate, its covariance and the error. Otherwise the estimate is identity with zero covariance and the first run's error |
| `PoseEstimation.SetPose` | src/stereoFrameHandler.cpp:296-313 | an accepted estimate chains the world pose through the inverse of the estimate and keeps an error below maxOptimError; a rejected one keeps the previous world pose with identity motion, zero covariance and error -1 |
| `PoseEstimation.OptimizePoseFrom` | src/stereoFrameHandler.cpp:257-315 | sets, track-ID counters, current features and previous pose untouched. Flags and counters are only lowered, and the counter gap outside the two sets is kept. Previous features change only their flags, and only those in the sets. On acceptance the error stored is below maxOptimError. On acceptance the current frame gets the inverse estimate, the chained world pose, the covariance and the error. On rejection it gets identity, the previous world pose, zero covariance and -1. Either way the stored eigenvalues are those of the estimate's covariance. Below minFeatures the covariance and its eigenvalues are those of the zero matrix, and the motion is the identity or its inverse |
| `PoseEstimation.OptimizePose` | src/stereoFrameHandler.cpp:241-315 | starting from the previous relative pose, with the same frame guarantees as `OptimizePoseFrom`: sets, track-ID counters and current features are untouched; only the flags of previous features in the sets change, and only downwards; counters are only lowered. The current frame is set by the accept/reject rule of `OptimizePoseFrom`. This includes the stored eigenvalues. Below minFeatures, flags and counters are untouched, the covariance and its eigenvalues are those of the zero matrix, and the motion is the identity or its inverse |
| `PoseEstimation.OptimizePoseWithInitial` | src/stereoFrameHandler.cpp:317-388 | starting from a given pose: the same guarantees, with the estimate started from that pose |
| `PoseEstimation.EstimateCountersBoundFlags` | src/stereoFrameHandler.cpp:257-293 | from counters equal to the set sizes, the counters after the estimate bound the raised flags |
| `PoseEstimation.OptimizePoseCountersBoundFlags` | src/stereoFrameHandler.cpp:241-315 | the same bound for the handler after optimizePose |
| `PoseEstimation.TrackThenOptimizeBoundsFlags` | src/stereoFrameHandler.cpp:217-219 | after a tracking step and optimizePose, the counters bound the raised flags |
| `PoseEstimation.TooFewAfterOutliersAcceptsIdentity` | src/stereoFrameHandler.cpp:277-303 | too few inliers after outlier removal with a low first error installs the identity motion, a zero covariance and that error |
| `PoseEstimation.DivergedIsRejected` | src/stereoFrameHandler.cpp:283-312 | a non-finite first pose is always rejected |

## Left out

- Descriptor matching is not modelled: `knnMatch`, the two matcher classes and the parallel `async` matching. The sorted k=2 match lists and the reverse best matches are inputs, assumed sorted by query with distinct queries (`Association.Fits`).
- Every `KnnMatch` carries a second-best distance. The source reads the second neighbour `[1]` even when the current frame has a single feature and knnMatch returns one neighbour. The model does not represent that out-of-range read.
- `lineDescriptorMAD` and `angDiff` are not modelled. The line-distance statistic is an input and the angle difference is a function parameter.
- The geometry and numerics are abstract parameters:
  - camera projection, Jacobians, Hessians and gradients;
  - the LDLT solve, the exponential map, `inverse_transformation` and the 6x6 inverse;
  - the eigen solver, `is_finite` and `vector_stdv_mad`.
- The uncertainty propagation of optimizeFunctions_uncweighted is not modelled. Its weight and the finiteness of the two line-endpoint variances are per-residual inputs.
- The Gauss-Newton motion-prior branch is not modelled (source lines 406-414); the model follows the prior-free branch.
- Floating point is modelled as real arithmetic:
  - `fabsf` rounds through `float`, which the model does not reproduce;
  - infinities are not represented; a zero second distance in the point ratio test is modelled as +inf (passes) or NaN (fails);
  - residual norms are finite and non-negative.
- `Solvers.Optimize` requires at least one iteration because the source reads `H` and `err` after the loop. `PoseEstimation.ConfigReady` therefore also requires `maxIters` and `maxItersRef` to be at least 1 and `lambdaK` to be non-zero when LM is used.
- Residuals.ScaledBalanceNormalisesSpreads: requires a non-negative homogTh; otherwise a spread can be zero or negative and the factors are not finite.
- Residuals.NonWeightedErrorNonNegative: covers only the non-weighted mode, because uncertainty weights are unconstrained inputs. It also requires a non-negative homogTh, whereas the source relies on the robust spread never being negative. That hypothesis is about the spread function, which the model takes as a parameter.
- Association.AssociateCounterGrowth: the exact count assumes a non-negative counter. The source seeds the counters with the first frame's sizes. A negative counter could hand out the unassigned ID -1 on a rejection, which the sweep would then renumber.
- The numbering of the first frame's features by `extractInitialStereoFeatures` is not part of this model. `Tracking.CycleKeepsIdDiscipline` takes the ID discipline of the previous frame as a precondition.
- Frame construction and keyframe state are not part of this model: `initialize`, `insertStereoPair`, feature extraction and stereo matching, the keyframe fields and the `_prev_kf` counters.
- updateFrame sets `curr_frame` to NULL; the model keeps the old value, which the next tracking step replaces.
- The copy of `prev_frame->DT_cov` into the local covariance is overwritten before it is read, so the model drops it.
- Integer counters are unbounded: overflow of the `int` ID and inlier counters is not modelled.
