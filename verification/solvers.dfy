/** gaussNewtonOptimization and levMarquardtOptimization: the iteration
    control of the two solvers (the stopping tests, the LM damping schedule
    and step acceptance) over abstract numerical kernels. A solver state S
    (the inlier flags, which every linearisation may lower) is threaded
    through the evaluations. */
module Solvers {
  import opened Numbers

  /** The error both loops start comparing against. */
  const InitialErrPrev: real := 999999999.9

  /** One linearisation at a pose: the new solver state, the normal
      equations (H and g) and the normalised error. */
  datatype Evaluation<S, H> = Evaluation(state: S, sys: H, err: Double)

  /** Solving the normal equations and applying the increment: the
      candidate pose and the increment's norm. */
  datatype Increment<P> = Increment(pose: P, norm: Double)

  datatype Kernel<!S, !P, !H> = Kernel(
    evaluate: (S, P) -> Evaluation<S, H>,
    damp: (H, real) -> H,       // H + damping * diag(H)
    step: (H, P) -> Increment<P>)

  datatype Settings = Settings(
    minErrorChange: real,
    minError: real,
    epsilon: real,
    lambdaInit: real,
    lambdaK: real)

  datatype Method = GaussNewton | LevenbergMarquardt

  /** Why the loop ended: the error changed by less than minErrorChange,
      the error fell below minError, the increment vanished, or the
      iteration budget ran out. */
  datatype Exit = ErrorSettled | ErrorFloor | StepVanished | BudgetSpent

  /** What a run leaves behind: the solver state, the pose, the last normal
      equations (damped if LM took a step after the last linearisation),
      the last error, the final damping, the number of linearisations, the
      exit reason, and how often the damping was divided and multiplied by
      lambdaK. */
  datatype Outcome<S, P, H> = Outcome(
    state: S, pose: P, sys: H, err: Double, damping: real,
    iters: nat, exit: Exit, divided: nat, multiplied: nat)

  predicate MethodReady(algo: Method, st: Settings)
  {
    algo == LevenbergMarquardt ==> st.lambdaK != 0.0
  }

  predicate ErrorExit(x: Exit)
  {
    x == ErrorSettled || x == ErrorFloor
  }

  /** The values one iteration hands to the next: the solver state, the
      pose, the previous error, the damping and the two damping counters. */
  datatype Carry<S, P> = Carry(s: S, pose: P, errPrev: Double, damping: real, divided: nat, multiplied: nat)

  /** The end of one iteration: leave the loop with an outcome, or go on. */
  datatype Turn<S, P, H> = Stop(outcome: Outcome<S, P, H>) | Continue(next: Carry<S, P>)
  {
    /** The pose the iteration leaves, whether the loop ends or goes on. */
    function Pose(): P
    {
      if Stop? then outcome.pose else next.pose
    }

    /** The damping the iteration leaves. */
    function Damping(): real
    {
      if Stop? then outcome.damping else next.damping
    }
  }

  /** The normal equations the step is solved from: LM adds the damping to
      the diagonal, GN uses them as they are. */
  function Damped<S, P, H>(k: Kernel<S, P, H>, algo: Method, sys: H, damping: real): H
  {
    if algo == LevenbergMarquardt then k.damp(sys, damping) else sys
  }

  /** Neither error test ends the iteration, so a step is taken. */
  predicate Steps(st: Settings, errPrev: Double, err: Double)
  {
    !CloserThan(err, errPrev, st.minErrorChange) && !Less(err, Finite(st.minError))
  }

  /** Whether LM rejects the step of this iteration: the error grew. */
  predicate Rejects(algo: Method, errPrev: Double, err: Double)
  {
    algo == LevenbergMarquardt && Less(errPrev, err)
  }

  /** The damping update of one step. */
  function NextDamping(algo: Method, st: Settings, damping: real, rejected: bool): real
    requires MethodReady(algo, st)
  {
    if algo == GaussNewton then damping
    else if rejected then damping / st.lambdaK
    else damping * st.lambdaK
  }

  /** One iteration of the loop body (iteration number `iter`, counted from 0). */
  function Body<S, P, H>(k: Kernel<S, P, H>, st: Settings, algo: Method, maxIters: nat, iter: nat, c: Carry<S, P>)
    : (t: Turn<S, P, H>)
    requires iter < maxIters && MethodReady(algo, st)
    ensures t.Continue? ==> iter + 1 < maxIters
    ensures t.Stop? ==> t.outcome.iters == iter + 1
    ensures t.Stop? && t.outcome.exit == BudgetSpent ==> iter + 1 == maxIters
    ensures t.Stop? ==> t.outcome.state == k.evaluate(c.s, c.pose).state
    ensures t.Continue? ==> t.next.s == k.evaluate(c.s, c.pose).state
    // the error tests: the change against the previous error, then the floor
    ensures var err := k.evaluate(c.s, c.pose).err;
      && (t.Stop? && t.outcome.exit == ErrorSettled <==> CloserThan(err, c.errPrev, st.minErrorChange))
      && (t.Stop? && t.outcome.exit == ErrorFloor <==>
            !CloserThan(err, c.errPrev, st.minErrorChange) && Less(err, Finite(st.minError)))
      && (t.Stop? ==> t.outcome.err == err)
      && (t.Continue? ==> t.next.errPrev == err)
    ensures t.Stop? && ErrorExit(t.outcome.exit) ==> t.outcome.pose == c.pose && t.outcome.damping == c.damping
    // the normal equations handed out: as linearised on an error exit, as
    // the step was solved from otherwise
    ensures var ev := k.evaluate(c.s, c.pose);
      t.Stop? ==> t.outcome.sys == (if ErrorExit(t.outcome.exit) then ev.sys else Damped(k, algo, ev.sys, c.damping))
    // a step: GN always takes it; LM keeps the pose and divides the damping
    // when the error grew, and otherwise takes it and multiplies the damping
    ensures var ev := k.evaluate(c.s, c.pose);
      var inc := k.step(Damped(k, algo, ev.sys, c.damping), c.pose);
      Steps(st, c.errPrev, ev.err) ==>
        && (t.Stop? && t.outcome.exit == StepVanished <==> Less(inc.norm, Finite(st.epsilon)))
        && (algo == GaussNewton ==> t.Pose() == inc.pose && t.Damping() == c.damping)
        && (algo == LevenbergMarquardt && Less(c.errPrev, ev.err) ==>
              t.Pose() == c.pose && t.Damping() == c.damping / st.lambdaK)
        && (algo == LevenbergMarquardt && !Less(c.errPrev, ev.err) ==>
              t.Pose() == inc.pose && t.Damping() == c.damping * st.lambdaK)
  {
    var ev := k.evaluate(c.s, c.pose);
    if CloserThan(ev.err, c.errPrev, st.minErrorChange) then
      Stop(Outcome(ev.state, c.pose, ev.sys, ev.err, c.damping, iter + 1, ErrorSettled, c.divided, c.multiplied))
    else if Less(ev.err, Finite(st.minError)) then
      Stop(Outcome(ev.state, c.pose, ev.sys, ev.err, c.damping, iter + 1, ErrorFloor, c.divided, c.multiplied))
    else
      var lm := algo == LevenbergMarquardt;
      var sys := Damped(k, algo, ev.sys, c.damping);
      var inc := k.step(sys, c.pose);
      var rejected := Rejects(algo, c.errPrev, ev.err);
      var pose := if rejected then c.pose else inc.pose;
      var damping := NextDamping(algo, st, c.damping, rejected);
      var divided := if rejected then c.divided + 1 else c.divided;
      var multiplied := if lm && !rejected then c.multiplied + 1 else c.multiplied;
      if Less(inc.norm, Finite(st.epsilon)) then
        Stop(Outcome(ev.state, pose, sys, ev.err, damping, iter + 1, StepVanished, divided, multiplied))
      else if iter + 1 == maxIters then
        Stop(Outcome(ev.state, pose, sys, ev.err, damping, iter + 1, BudgetSpent, divided, multiplied))
      else
        Continue(Carry(ev.state, pose, ev.err, damping, divided, multiplied))
  }

  /** The loop from iteration `iter` on. */
  function Iterate<S, P, H>(k: Kernel<S, P, H>, st: Settings, algo: Method, maxIters: nat, iter: nat, c: Carry<S, P>)
    : (r: Outcome<S, P, H>)
    requires iter < maxIters && MethodReady(algo, st)
    ensures iter < r.iters <= maxIters
    ensures r.exit == BudgetSpent ==> r.iters == maxIters
    ensures r.exit == ErrorFloor ==> Less(r.err, Finite(st.minError))
    ensures !ErrorExit(r.exit) ==> !Less(r.err, Finite(st.minError))
    ensures c.divided <= r.divided && c.multiplied <= r.multiplied
    ensures algo == GaussNewton ==>
      r.damping == c.damping && r.divided == c.divided && r.multiplied == c.multiplied
    ensures algo == LevenbergMarquardt ==>
      (r.divided - c.divided) + (r.multiplied - c.multiplied)
        == r.iters - iter - (if ErrorExit(r.exit) then 1 else 0)
    decreases maxIters - iter
  {
    match Body(k, st, algo, maxIters, iter, c)
    case Stop(o) => o
    case Continue(c') => Iterate(k, st, algo, maxIters, iter + 1, c')
  }

  function Start<S, P>(st: Settings, s: S, pose: P): Carry<S, P>
  {
    Carry(s, pose, Finite(InitialErrPrev), st.lambdaInit, 0, 0)
  }

  /** A whole run from the initial pose. The source reads the last
      linearisation after the loop, so at least one iteration is required. */
  function Optimize<S, P, H>(k: Kernel<S, P, H>, st: Settings, algo: Method, maxIters: nat, s: S, pose: P)
    : (r: Outcome<S, P, H>)
    requires 1 <= maxIters && MethodReady(algo, st)
    ensures 1 <= r.iters <= maxIters
    ensures r.exit == BudgetSpent ==> r.iters == maxIters
    ensures !ErrorExit(r.exit) ==> !Less(r.err, Finite(st.minError))
    ensures algo == GaussNewton ==> r.damping == st.lambdaInit && r.divided == 0 && r.multiplied == 0
    ensures algo == LevenbergMarquardt ==>
      r.divided + r.multiplied == r.iters - (if ErrorExit(r.exit) then 1 else 0)
  {
    Iterate(k, st, algo, maxIters, 0, Start(st, s, pose))
  }

  function GaussNewtonOptimization<S, P, H>(k: Kernel<S, P, H>, st: Settings, maxIters: nat, s: S, pose: P)
    : (r: Outcome<S, P, H>)
    requires 1 <= maxIters
    ensures 1 <= r.iters <= maxIters
    ensures r.damping == st.lambdaInit && r.divided == 0 && r.multiplied == 0
    ensures !ErrorExit(r.exit) ==> !Less(r.err, Finite(st.minError))
  {
    Optimize(k, st, GaussNewton, maxIters, s, pose)
  }

  function LevMarquardtOptimization<S, P, H>(k: Kernel<S, P, H>, st: Settings, maxIters: nat, s: S, pose: P)
    : (r: Outcome<S, P, H>)
    requires 1 <= maxIters && st.lambdaK != 0.0
    ensures 1 <= r.iters <= maxIters
    ensures r.divided + r.multiplied == r.iters - (if ErrorExit(r.exit) then 1 else 0)
    ensures !ErrorExit(r.exit) ==> !Less(r.err, Finite(st.minError))
  {
    Optimize(k, st, LevenbergMarquardt, maxIters, s, pose)
  }

  /** The solver loop as the source writes it: a counted loop left by
      `break`, the covariance and error read after it. It computes exactly
      the recursive definition. */
  method OptimizeLoop<S, P, H>(k: Kernel<S, P, H>, st: Settings, algo: Method, maxIters: nat, s0: S, pose0: P)
    returns (r: Outcome<S, P, H>)
    requires 1 <= maxIters && MethodReady(algo, st)
    ensures r == Optimize(k, st, algo, maxIters, s0, pose0)
  {
    var s, pose, errPrev, damping := s0, pose0, Finite(InitialErrPrev), st.lambdaInit;
    var divided, multiplied := 0, 0;
    var lm := algo == LevenbergMarquardt;
    var iter := 0;
    while true
      invariant iter < maxIters
      invariant Iterate(k, st, algo, maxIters, iter, Carry(s, pose, errPrev, damping, divided, multiplied))
             == Optimize(k, st, algo, maxIters, s0, pose0)
      decreases maxIters - iter
    {
      ghost var c := Carry(s, pose, errPrev, damping, divided, multiplied);
      var ev := k.evaluate(s, pose);
      if CloserThan(ev.err, errPrev, st.minErrorChange) {
        r := Outcome(ev.state, pose, ev.sys, ev.err, damping, iter + 1, ErrorSettled, divided, multiplied);
        return;
      }
      if Less(ev.err, Finite(st.minError)) {
        r := Outcome(ev.state, pose, ev.sys, ev.err, damping, iter + 1, ErrorFloor, divided, multiplied);
        return;
      }
      var sys := ev.sys;
      if lm {
        sys := k.damp(sys, damping);
      }
      var inc := k.step(sys, pose);
      if lm && Less(errPrev, ev.err) {
        damping := damping / st.lambdaK;
        divided := divided + 1;
      } else {
        if lm {
          damping := damping * st.lambdaK;
          multiplied := multiplied + 1;
        }
        pose := inc.pose;
      }
      if Less(inc.norm, Finite(st.epsilon)) {
        r := Outcome(ev.state, pose, sys, ev.err, damping, iter + 1, StepVanished, divided, multiplied);
        return;
      }
      if iter + 1 == maxIters {
        r := Outcome(ev.state, pose, sys, ev.err, damping, iter + 1, BudgetSpent, divided, multiplied);
        return;
      }
      s, errPrev := ev.state, ev.err;
      assert Body(k, st, algo, maxIters, iter, c) == Continue(Carry(s, pose, errPrev, damping, divided, multiplied));
      iter := iter + 1;
    }
  }

  // ---------------------------------------------------------------------
  // Properties

  function Pow(x: real, n: nat): real
  {
    if n == 0 then 1.0 else x * Pow(x, n - 1)
  }


  /** How one iteration may change the damping: not at all (an exit on the
      error tests, or Gauss-Newton), divided by lambdaK on a rejected LM
      step, multiplied by it on an accepted one. */
  predicate ScheduleStep(K: real, cDamp: real, cD: nat, cM: nat, damping: real, divided: nat, multiplied: nat)
    requires K != 0.0
  {
    || (divided == cD && multiplied == cM && damping == cDamp)
    || (divided == cD + 1 && multiplied == cM && damping == cDamp / K)
    || (divided == cD && multiplied == cM + 1 && damping == cDamp * K)
  }

  lemma BodyFollowsSchedule<S, P, H>(k: Kernel<S, P, H>, st: Settings, maxIters: nat, iter: nat, c: Carry<S, P>)
    requires iter < maxIters && st.lambdaK != 0.0
    ensures var t := Body(k, st, LevenbergMarquardt, maxIters, iter, c);
      if t.Stop? then ScheduleStep(st.lambdaK, c.damping, c.divided, c.multiplied,
                                   t.outcome.damping, t.outcome.divided, t.outcome.multiplied)
      else ScheduleStep(st.lambdaK, c.damping, c.divided, c.multiplied, t.next.damping, t.next.divided, t.next.multiplied)
  {
  }

  lemma {:induction false} RejectedThenRest(K: real, cDamp: real, cD: nat, cM: nat, nDamp: real,
                                            rDamp: real, rD: nat, rM: nat)
    requires K != 0.0 && nDamp == cDamp / K && cD + 1 <= rD && cM <= rM
    requires rDamp * Pow(K, rD - (cD + 1)) == nDamp * Pow(K, rM - cM)
    ensures rDamp * Pow(K, rD - cD) == cDamp * Pow(K, rM - cM)
  {
    var pd, pm := Pow(K, rD - (cD + 1)), Pow(K, rM - cM);
    assert Pow(K, rD - cD) == K * pd;
    var a := rDamp * pd;
    assert a == nDamp * pm;
    assert rDamp * (K * pd) == K * a;
    assert K * (nDamp * pm) == (K * nDamp) * pm;
    assert K * nDamp == cDamp;
  }

  lemma {:induction false} AcceptedThenRest(K: real, cDamp: real, cD: nat, cM: nat, nDamp: real,
                                            rDamp: real, rD: nat, rM: nat)
    requires nDamp == cDamp * K && cD <= rD && cM + 1 <= rM
    requires rDamp * Pow(K, rD - cD) == nDamp * Pow(K, rM - (cM + 1))
    ensures rDamp * Pow(K, rD - cD) == cDamp * Pow(K, rM - cM)
  {
    var pm := Pow(K, rM - (cM + 1));
    assert Pow(K, rM - cM) == K * pm;
    assert nDamp * pm == cDamp * (K * pm);
  }

  /** The closed form of the damping schedule between a carry (cDamp, cD,
      cM) and a later point (rDamp, rD, rM): rDamp is cDamp multiplied by K
      rM - cM times and divided by it rD - cD times. */
  predicate Scheduled(K: real, cDamp: real, cD: nat, cM: nat, rDamp: real, rD: nat, rM: nat)
  {
    cD <= rD && cM <= rM && rDamp * Pow(K, rD - cD) == cDamp * Pow(K, rM - cM)
  }

  /** One schedule step followed by the rest of the run keeps the closed form. */
  lemma {:induction false} ScheduleCompose(K: real, cDamp: real, cD: nat, cM: nat, nDamp: real, nD: nat, nM: nat,
                                           rDamp: real, rD: nat, rM: nat)
    requires K != 0.0 && ScheduleStep(K, cDamp, cD, cM, nDamp, nD, nM)
    requires Scheduled(K, nDamp, nD, nM, rDamp, rD, rM)
    ensures Scheduled(K, cDamp, cD, cM, rDamp, rD, rM)
  {
    if nD == cD + 1 {
      RejectedThenRest(K, cDamp, cD, cM, nDamp, rDamp, rD, rM);
    } else if nM == cM + 1 {
      AcceptedThenRest(K, cDamp, cD, cM, nDamp, rDamp, rD, rM);
    }
  }

  /** The LM damping after a run is the initial damping multiplied by
      lambdaK once per accepted step and divided by it once per rejected
      step. */
  lemma {:induction false} DampingSchedule<S, P, H>(k: Kernel<S, P, H>, st: Settings, maxIters: nat, iter: nat,
                                                   c: Carry<S, P>)
    requires iter < maxIters && st.lambdaK != 0.0
    ensures var r := Iterate(k, st, LevenbergMarquardt, maxIters, iter, c);
      Scheduled(st.lambdaK, c.damping, c.divided, c.multiplied, r.damping, r.divided, r.multiplied)
    decreases maxIters - iter
  {
    var r := Iterate(k, st, LevenbergMarquardt, maxIters, iter, c);
    var t := Body(k, st, LevenbergMarquardt, maxIters, iter, c);
    BodyFollowsSchedule(k, st, maxIters, iter, c);
    if t.Continue? {
      var n := t.next;
      DampingSchedule(k, st, maxIters, iter + 1, n);
      assert r == Iterate(k, st, LevenbergMarquardt, maxIters, iter + 1, n);
      ScheduleCompose(st.lambdaK, c.damping, c.divided, c.multiplied, n.damping, n.divided, n.multiplied,
                      r.damping, r.divided, r.multiplied);
    } else {
      assert r == t.outcome;
      ScheduleCompose(st.lambdaK, c.damping, c.divided, c.multiplied, r.damping, r.divided, r.multiplied,
                      r.damping, r.divided, r.multiplied);
    }
  }

  /** Over a whole LM run the damping is lambdaLM times lambdaK to the
      number of accepted steps, divided by lambdaK to the number of
      rejected ones. */
  lemma LevMarquardtDampingSchedule<S, P, H>(k: Kernel<S, P, H>, st: Settings, maxIters: nat, s: S, pose: P)
    requires 1 <= maxIters && st.lambdaK != 0.0
    ensures var r := LevMarquardtOptimization(k, st, maxIters, s, pose);
      Scheduled(st.lambdaK, st.lambdaInit, 0, 0, r.damping, r.divided, r.multiplied)
  {
    DampingSchedule(k, st, maxIters, 0, Start(st, s, pose));
  }

  /** A positive damping stays positive when lambdaK is positive. */
  lemma {:induction false} DampingStaysPositive<S, P, H>(k: Kernel<S, P, H>, st: Settings, maxIters: nat, iter: nat,
                                                        c: Carry<S, P>)
    requires iter < maxIters && 0.0 < st.lambdaK && 0.0 < c.damping
    ensures 0.0 < Iterate(k, st, LevenbergMarquardt, maxIters, iter, c).damping
    decreases maxIters - iter
  {
    var t := Body(k, st, LevenbergMarquardt, maxIters, iter, c);
    BodyFollowsSchedule(k, st, maxIters, iter, c);
    if t.Continue? {
      assert 0.0 < t.next.damping;
      DampingStaysPositive(k, st, maxIters, iter + 1, t.next);
    } else {
      assert 0.0 < t.outcome.damping;
    }
  }

  /** With Gauss-Newton, one iteration does the same whatever the damping
      kernel, the damping settings and the damping carried in. */
  lemma GaussNewtonBodyIgnoresDamping<S, P, H>(k: Kernel<S, P, H>, st: Settings, damp': (H, real) -> H,
                                             lambdaInit': real, lambdaK': real,
                                             maxIters: nat, iter: nat, c: Carry<S, P>, damping': real)
    requires iter < maxIters
    ensures var t := Body(k, st, GaussNewton, maxIters, iter, c);
      var t' := Body(k.(damp := damp'), st.(lambdaInit := lambdaInit', lambdaK := lambdaK'), GaussNewton,
                     maxIters, iter, c.(damping := damping'));
      && t'.Stop? == t.Stop?
      && (t.Stop? ==> t'.outcome == t.outcome.(damping := damping'))
      && (t.Continue? ==> t'.next == t.next.(damping := damping'))
  {
  }

  /** Gauss-Newton ignores the damping kernel and the damping settings. */
  lemma {:induction false} GaussNewtonIgnoresDamping<S, P, H>(k: Kernel<S, P, H>, st: Settings, damp': (H, real) -> H,
                                                             lambdaInit': real, lambdaK': real,
                                                             maxIters: nat, iter: nat, c: Carry<S, P>, damping': real)
    requires iter < maxIters
    ensures var r := Iterate(k, st, GaussNewton, maxIters, iter, c);
      var r' := Iterate(k.(damp := damp'), st.(lambdaInit := lambdaInit', lambdaK := lambdaK'), GaussNewton,
                        maxIters, iter, c.(damping := damping'));
      r' == r.(damping := damping')
    decreases maxIters - iter
  {
    var k', st' := k.(damp := damp'), st.(lambdaInit := lambdaInit', lambdaK := lambdaK');
    var t := Body(k, st, GaussNewton, maxIters, iter, c);
    GaussNewtonBodyIgnoresDamping(k, st, damp', lambdaInit', lambdaK', maxIters, iter, c, damping');
    if t.Continue? {
      GaussNewtonIgnoresDamping(k, st, damp', lambdaInit', lambdaK', maxIters, iter + 1, t.next, damping');
      assert t.next.(damping := damping') == Body(k', st', GaussNewton, maxIters, iter, c.(damping := damping')).next;
    }
  }

  /** A property of the solver state that every linearisation preserves
      holds of the state a run leaves behind. */
  lemma {:induction false} StatePreserved<S, P, H>(k: Kernel<S, P, H>, st: Settings, algo: Method, maxIters: nat,
                                                  iter: nat, c: Carry<S, P>, inv: S -> bool)
    requires iter < maxIters && MethodReady(algo, st)
    requires forall s', p :: inv(s') ==> inv(k.evaluate(s', p).state)
    requires inv(c.s)
    ensures inv(Iterate(k, st, algo, maxIters, iter, c).state)
    decreases maxIters - iter
  {
    var t := Body(k, st, algo, maxIters, iter, c);
    if t.Continue? {
      StatePreserved(k, st, algo, maxIters, iter + 1, t.next, inv);
    }
  }

  /** When the very first linearisation already meets a stopping test on
      the error, the pose is returned untouched after one iteration. */
  lemma FirstErrorExitKeepsPose<S, P, H>(k: Kernel<S, P, H>, st: Settings, algo: Method, maxIters: nat, s: S, pose: P)
    requires 1 <= maxIters && MethodReady(algo, st)
    requires var e := k.evaluate(s, pose).err;
      CloserThan(e, Finite(InitialErrPrev), st.minErrorChange) || Less(e, Finite(st.minError))
    ensures var r := Optimize(k, st, algo, maxIters, s, pose);
      r.pose == pose && r.iters == 1 && ErrorExit(r.exit) && r.state == k.evaluate(s, pose).state
  {
  }
}
