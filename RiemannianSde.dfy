/** The Brownian-motion SDE on a compact manifold and its time reversal
    (riemannian_score_sde/sde.py), over exact reals.

    A forward SDE is `Brownian(t0, tf, beta0, betaf)`: zero drift and a scalar
    diffusion g(t) with g(t)² = beta_t(t), beta_t interpolating linearly
    from beta0 at t0 to betaf at tf. `ReverseBrownian(sde, scoreFn)` is the
    time-reversed process built by `Reverse`: its own interval is the forward
    interval swapped and its own betas are the defaults 0.1 and 20 (the
    forward betas are not passed on), while its coefficients are those of the
    forward SDE with the drift corrected by Anderson's formula f − G·Gᵀ·score.

    The manifold (heat kernel, log-volume), the score network, exp and sqrt
    are parameters: uninterpreted functions and reals. */
module RiemannianSde {
  import opened Vectors
  import opened LinAlg

  /** A score field: the model's estimate of ∇ log p_t at (x, t). */
  type ScoreFn = (seq<real>, real) -> seq<real>

  /** The betas a Brownian object gets when none are passed. */
  const DefaultBeta0: real := 0.1
  const DefaultBetaF: real := 20.0

  datatype Sde =
    | Brownian(t0: real, tf: real, beta0: real, betaf: real)
    | ReverseBrownian(sde: Sde, scoreFn: ScoreFn)

  /** A diffusion coefficient. A scalar one, jnp.sqrt(beta), is held by its
      square: every use of it multiplies it by itself. */
  datatype Diffusion =
    | ScalarDiffusion(squared: real)
    | MatrixDiffusion(g: seq<seq<real>>)

  /** Start of the SDE's own time interval. */
  function T0(s: Sde): real
  {
    match s
    case Brownian(t0, _, _, _) => t0
    case ReverseBrownian(fwd, _) => Tf(fwd)
  }

  /** End of the SDE's own time interval. */
  function Tf(s: Sde): real
  {
    match s
    case Brownian(_, tf, _, _) => tf
    case ReverseBrownian(fwd, _) => T0(fwd)
  }

  /** The SDE's own beta_0: a reverse SDE is built without one and keeps the default. */
  function Beta0(s: Sde): real
  {
    match s
    case Brownian(_, _, beta0, _) => beta0
    case ReverseBrownian(_, _) => DefaultBeta0
  }

  function BetaF(s: Sde): real
  {
    match s
    case Brownian(_, _, _, betaf) => betaf
    case ReverseBrownian(_, _) => DefaultBetaF
  }

  /** Time t rescaled so that the interval [T0, Tf] becomes [0, 1]. */
  function NormedTime(s: Sde, t: real): real
    requires T0(s) != Tf(s)
  {
    (t - T0(s)) / (Tf(s) - T0(s))
  }

  /** The linear noise schedule beta_t. */
  function BetaT(s: Sde, t: real): real
    requires T0(s) != Tf(s)
  {
    Beta0(s) + NormedTime(s, t) * (BetaF(s) - Beta0(s))
  }

  /** Every score field met on the way down to the forward SDE gives, at (x, t),
      a vector of x's length, as the drift arithmetic needs. */
  predicate ScoresFit(s: Sde, x: seq<real>, t: real)
  {
    match s
    case Brownian(_, _, _, _) => true
    case ReverseBrownian(fwd, scoreFn) => |scoreFn(x, t)| == |x| && ScoresFit(fwd, x, t)
  }

  /** Anderson's drift correction f − G·Gᵀ·score. With a scalar diffusion g the
      contraction is "...,...,...i->...i" (g·g·score); with a full matrix it
      is "...ij,...kj,...k->...i". */
  function ReverseDrift(f: seq<real>, d: Diffusion, score: seq<real>): (r: seq<real>)
    requires |score| == |f|
    requires d.MatrixDiffusion? ==> Rectangular(d.g) && |d.g| == |f|
    ensures |r| == |f|
    ensures d.ScalarDiffusion? ==> forall i :: 0 <= i < |f| ==> r[i] == f[i] - d.squared * score[i]
  {
    match d
    case ScalarDiffusion(g2) => Sub(f, Scale(g2, score))
    case MatrixDiffusion(g) => Sub(f, Contract(g, score))
  }

  /** coefficients(x, t): the drift and the diffusion at (x, t). A reverse SDE
      asks its forward SDE and corrects only the drift. */
  function Coefficients(s: Sde, x: seq<real>, t: real): (r: (seq<real>, Diffusion))
    requires T0(s) != Tf(s)
    requires ScoresFit(s, x, t)
    ensures |r.0| == |x|
    ensures r.1.ScalarDiffusion?
  {
    match s
    case Brownian(_, _, _, _) =>
      (Zeros(|x|), ScalarDiffusion(BetaT(s, t)))
    case ReverseBrownian(fwd, scoreFn) =>
      var (forwardDrift, diffusion) := Coefficients(fwd, x, t);
      (ReverseDrift(forwardDrift, diffusion, scoreFn(x, t)), diffusion)
  }

  /** The Euclidean log-mean coefficient of marginal_prob. */
  function LogMeanCoeff(s: Sde, t: real): real
  {
    -0.25 * t * t * (BetaF(s) - Beta0(s)) - 0.5 * t * Beta0(s)
  }

  /** marginal_prob(x, t): a zero mean of x's shape and std = sqrt(1 − exp(2·log_mean_coeff)). */
  function MarginalProb(s: Sde, x: seq<real>, t: real, exp: real -> real, sqrt: real -> real): (r: (seq<real>, real))
    ensures r.0 == Zeros(|x|)
    ensures r.1 == sqrt(1.0 - exp(-ElapsedTime(s, t)))
  {
    (Zeros(|x|), sqrt(1.0 - exp(2.0 * LogMeanCoeff(s, t))))
  }

  /** The schedule-derived time s at which marginal_log_prob evaluates the heat kernel. */
  function ElapsedTime(s: Sde, t: real): real
  {
    2.0 * (0.25 * t * t * (BetaF(s) - Beta0(s)) + 0.5 * t * Beta0(s))
  }

  /** marginal_log_prob(x0, x, t): the manifold's log heat kernel at elapsed time s. */
  function MarginalLogProb(s: Sde, x0: seq<real>, x: seq<real>, t: real,
                           logHeatKernel: (seq<real>, seq<real>, real) -> real): (r: real)
    ensures r == logHeatKernel(x0, x, -2.0 * LogMeanCoeff(s, t))
  {
    ElapsedTimeIsLogMeanCoeff(s, t);
    logHeatKernel(x0, x, ElapsedTime(s, t))
  }

  /** limiting_distribution_logp(z): −log volume for each point of z. */
  function LimitingLogp(z: seq<seq<real>>, logVolume: real): (r: seq<real>)
    ensures |r| == |z|
    ensures forall i :: 0 <= i < |z| ==> r[i] == -logVolume
  {
    Scale(-1.0, Constant(|z|, logVolume))
  }

  /** reverse: a forward SDE gives its time reversal driven by `scoreFn`; a
      reverse SDE gives back the forward SDE it holds (its `reverse` takes no
      score, so `scoreFn` is not used there). */
  function Reverse(s: Sde, scoreFn: ScoreFn): (r: Sde)
    ensures s.Brownian? ==> r.ReverseBrownian? && r.sde == s && r.scoreFn == scoreFn
    ensures s.Brownian? ==> T0(r) == Tf(s) && Tf(r) == T0(s)
    ensures s.Brownian? ==> Beta0(r) == DefaultBeta0 && BetaF(r) == DefaultBetaF
    ensures s.ReverseBrownian? ==> r == s.sde
  {
    match s
    case Brownian(_, _, _, _) => ReverseBrownian(s, scoreFn)
    case ReverseBrownian(fwd, _) => fwd
  }

  // ---------------------------------------------------------------------
  // The schedule

  /** beta_t meets beta_0 at the start of the interval and beta_f at its end. */
  lemma BetaTEndpoints(s: Sde)
    requires T0(s) != Tf(s)
    ensures BetaT(s, T0(s)) == Beta0(s)
    ensures BetaT(s, Tf(s)) == BetaF(s)
  {
    var d := Tf(s) - T0(s);
    assert NormedTime(s, Tf(s)) == d / d;
  }

  /** beta_t is affine: it maps every affine combination of times to the same
      combination of values. */
  lemma BetaTAffine(s: Sde, a: real, b: real, w: real)
    requires T0(s) != Tf(s)
    ensures BetaT(s, w * a + (1.0 - w) * b) == w * BetaT(s, a) + (1.0 - w) * BetaT(s, b)
  {
    var d := Tf(s) - T0(s);
    var h := BetaF(s) - Beta0(s);
    var c := w * a + (1.0 - w) * b;
    SlopeForm(a - T0(s), d, h);
    SlopeForm(b - T0(s), d, h);
    SlopeForm(c - T0(s), d, h);
  }

  lemma SlopeForm(u: real, d: real, h: real)
    requires d != 0.0
    ensures (u / d) * h == u * (h / d)
  {
  }

  /** With beta_0 ≤ beta_f over a forward-running interval, beta_t is nondecreasing. */
  lemma BetaTMonotone(s: Sde, t1: real, t2: real)
    requires T0(s) < Tf(s) && Beta0(s) <= BetaF(s)
    requires t1 <= t2
    ensures BetaT(s, t1) <= BetaT(s, t2)
  {
    var d := Tf(s) - T0(s);
    assert NormedTime(s, t1) <= NormedTime(s, t2) by {
      DivMonotone(t1 - T0(s), t2 - T0(s), d);
    }
    MulMonotone(NormedTime(s, t1), NormedTime(s, t2), BetaF(s) - Beta0(s));
  }

  lemma DivMonotone(a: real, b: real, d: real)
    requires a <= b && d > 0.0
    ensures a / d <= b / d
  {
  }

  lemma MulMonotone(a: real, b: real, h: real)
    requires a <= b && h >= 0.0
    ensures a * h <= b * h
  {
  }

  /** On [t0, tf], with beta_0 ≤ beta_f, beta_t stays within [beta_0, beta_f]. */
  lemma BetaTBounded(s: Sde, t: real)
    requires T0(s) < Tf(s) && Beta0(s) <= BetaF(s)
    requires T0(s) <= t <= Tf(s)
    ensures Beta0(s) <= BetaT(s, t) <= BetaF(s)
  {
    BetaTEndpoints(s);
    BetaTMonotone(s, T0(s), t);
    BetaTMonotone(s, t, Tf(s));
  }

  /** On [t0, tf] beta_t is the convex combination (1 − u)·beta_0 + u·beta_f of
      its end values, with u the normed time in [0, 1]. */
  lemma BetaTConvex(s: Sde, t: real)
    requires T0(s) < Tf(s) && T0(s) <= t <= Tf(s)
    ensures 0.0 <= NormedTime(s, t) <= 1.0
    ensures BetaT(s, t) == (1.0 - NormedTime(s, t)) * Beta0(s) + NormedTime(s, t) * BetaF(s)
  {
    var d := Tf(s) - T0(s);
    DivMonotone(0.0, t - T0(s), d);
    DivMonotone(t - T0(s), d, d);
    DivSelf(d);
    var u := NormedTime(s, t);
    assert Beta0(s) + u * (BetaF(s) - Beta0(s)) == (1.0 - u) * Beta0(s) + u * BetaF(s);
  }

  lemma DivSelf(d: real)
    requires d != 0.0
    ensures d / d == 1.0
  {
  }

  /** On [t0, tf] beta_t is non-negative when both betas are, whichever of the
      two is larger. */
  lemma BetaTNonNegative(s: Sde, t: real)
    requires T0(s) < Tf(s) && T0(s) <= t <= Tf(s)
    requires 0.0 <= Beta0(s) && 0.0 <= BetaF(s)
    ensures BetaT(s, t) >= 0.0
  {
    BetaTConvex(s, t);
    var u := NormedTime(s, t);
    MulMonotone(0.0, 1.0 - u, Beta0(s));
    MulMonotone(0.0, u, BetaF(s));
    assert (1.0 - u) * Beta0(s) >= 0.0 && u * BetaF(s) >= 0.0;
  }

  /** A reverse SDE's own beta_t runs the default schedule backwards in forward
      time: at time t it equals that of a default-beta forward SDE on the same
      interval at the mirrored time t0 + tf − t. */
  lemma ReverseScheduleIsMirroredDefault(fwd: Sde, scoreFn: ScoreFn, t: real)
    requires fwd.Brownian? && fwd.t0 != fwd.tf
    ensures BetaT(ReverseBrownian(fwd, scoreFn), t)
         == BetaT(Brownian(fwd.t0, fwd.tf, DefaultBeta0, DefaultBetaF), fwd.t0 + fwd.tf - t)
  {
    var r := ReverseBrownian(fwd, scoreFn);
    var d := Brownian(fwd.t0, fwd.tf, DefaultBeta0, DefaultBetaF);
    assert NormedTime(r, t) == NormedTime(d, fwd.t0 + fwd.tf - t) by {
      NegateFraction(t - fwd.tf, fwd.t0 - fwd.tf);
    }
  }

  lemma NegateFraction(a: real, b: real)
    requires b != 0.0
    ensures a / b == (-a) / (-b)
  {
  }

  // ---------------------------------------------------------------------
  // Coefficients

  /** Forward coefficients: an all-zero drift of x's length and a diffusion whose
      square is beta_t(t). */
  lemma BrownianCoefficients(s: Sde, x: seq<real>, t: real)
    requires s.Brownian? && s.t0 != s.tf
    ensures Coefficients(s, x, t).0 == Zeros(|x|)
    ensures Coefficients(s, x, t).1 == ScalarDiffusion(BetaT(s, t))
  {
  }

  /** The diffusion coefficient equals sqrt(beta_0) at t0 and sqrt(beta_f) at tf,
      stated on its square. */
  lemma {:induction false} DiffusionAtEndpoints(s: Sde, x: seq<real>)
    requires s.Brownian? && s.t0 != s.tf
    ensures Coefficients(s, x, s.t0).1.squared == s.beta0
    ensures Coefficients(s, x, s.tf).1.squared == s.betaf
  {
    BetaTEndpoints(s);
  }

  /** Reversing a Brownian SDE: the drift becomes −beta_t(t)·score and the
      diffusion is the forward one. Both use the forward SDE's schedule, not
      the default betas the reverse object itself carries. */
  lemma ReverseBrownianCoefficients(fwd: Sde, scoreFn: ScoreFn, x: seq<real>, t: real)
    requires fwd.Brownian? && fwd.t0 != fwd.tf
    requires |scoreFn(x, t)| == |x|
    ensures var (drift, diffusion) := Coefficients(Reverse(fwd, scoreFn), x, t);
            && diffusion == ScalarDiffusion(BetaT(fwd, t))
            && |drift| == |x|
            && forall i :: 0 <= i < |x| ==> drift[i] == -BetaT(fwd, t) * scoreFn(x, t)[i]
  {
  }

  /** Reverse coefficients of any SDE with a scalar diffusion: each drift entry is
      the forward one minus g·g times the score entry; the diffusion is unchanged. */
  lemma ReverseCoefficientsScalar(fwd: Sde, scoreFn: ScoreFn, x: seq<real>, t: real)
    requires T0(fwd) != Tf(fwd)
    requires ScoresFit(ReverseBrownian(fwd, scoreFn), x, t)
    ensures var (f, g) := Coefficients(fwd, x, t);
            var (drift, diffusion) := Coefficients(ReverseBrownian(fwd, scoreFn), x, t);
            && diffusion == g
            && forall i :: 0 <= i < |x| ==> drift[i] == f[i] - g.squared * scoreFn(x, t)[i]
  {
  }

  /** With a full diffusion matrix G the corrected drift is f − G·(Gᵀ·score),
      equivalently f − (G·Gᵀ)·score. */
  lemma ReverseDriftMatrix(f: seq<real>, g: seq<seq<real>>, score: seq<real>)
    requires Rectangular(g) && |g| == |f| && |score| == |f|
    ensures ReverseDrift(f, MatrixDiffusion(g), score) == Sub(f, MatVec(g, MatVec(Transpose(g), score)))
    ensures ReverseDrift(f, MatrixDiffusion(g), score) == Sub(f, MatVec(Gram(g), score))
  {
    ContractIsGGtProduct(g, score);
  }

  /** The two branches agree: a matrix diffusion c·I gives the same drift as
      the scalar diffusion c. */
  lemma ReverseDriftBranchesAgree(f: seq<real>, c: real, score: seq<real>)
    requires |score| == |f|
    ensures ReverseDrift(f, MatrixDiffusion(ScaledIdentity(|f|, c)), score)
         == ReverseDrift(f, ScalarDiffusion(c * c), score)
  {
    ContractScaledIdentity(|f|, c, score);
  }

  // ---------------------------------------------------------------------
  // Marginals

  /** The elapsed time s is −2·log_mean_coeff. */
  lemma ElapsedTimeIsLogMeanCoeff(s: Sde, t: real)
    ensures ElapsedTime(s, t) == -2.0 * LogMeanCoeff(s, t)
  {
  }

  /** For t ≥ 0 and 0 ≤ beta_0 ≤ beta_f the elapsed time is non-negative. */
  lemma ElapsedTimeNonNegative(s: Sde, t: real)
    requires 0.0 <= Beta0(s) <= BetaF(s)
    requires t >= 0.0
    ensures ElapsedTime(s, t) >= 0.0
  {
    var h := BetaF(s) - Beta0(s);
    var square := t * t;
    assert square >= 0.0;
    MulMonotone(0.0, square, h);
    MulMonotone(0.0, t, Beta0(s));
    assert ElapsedTime(s, t) == 0.5 * (square * h) + t * Beta0(s);
  }

  /** On the unit interval [0, 1] the elapsed time is the integral of beta_t:
      its increment over [t1, t2] is the trapezoid area under the (affine)
      schedule. */
  lemma ElapsedTimeIntegratesSchedule(s: Sde, t1: real, t2: real)
    requires T0(s) == 0.0 && Tf(s) == 1.0
    ensures ElapsedTime(s, t2) - ElapsedTime(s, t1) == (t2 - t1) * (BetaT(s, t1) + BetaT(s, t2)) / 2.0
  {
  }

  /** Off the unit interval the elapsed time is not the integral of the
      schedule: s reads the raw t and ignores t0 and tf. On [0, 2] with the
      default betas s grows by 40 while beta_t integrates to 20.1. */
  lemma ElapsedTimeOffUnitInterval()
    ensures var s := Brownian(0.0, 2.0, DefaultBeta0, DefaultBetaF);
      && ElapsedTime(s, 2.0) - ElapsedTime(s, 0.0) == 40.0
      && (2.0 - 0.0) * (BetaT(s, 0.0) + BetaT(s, 2.0)) / 2.0 == 20.1
  {
  }

  // ---------------------------------------------------------------------
  // Limiting distribution and reversal

  /** The limiting log-density averages to −log volume over any non-empty batch. */
  lemma LimitingLogpMean(z: seq<seq<real>>, logVolume: real)
    requires |z| > 0
    ensures Mean(LimitingLogp(z, logVolume)) == -logVolume
  {
    assert LimitingLogp(z, logVolume) == Constant(|z|, -logVolume);
    MeanConstant(|z|, -logVolume);
  }

  /** Reversing twice gives back the original forward SDE, whatever the scores. */
  lemma ReverseInvolution(s: Sde, scoreFn: ScoreFn, other: ScoreFn)
    requires s.Brownian?
    ensures Reverse(Reverse(s, scoreFn), other) == s
  {
  }

  /** The reversal of a reversal has the original interval and the original
      drift and diffusion at every (x, t). */
  lemma ReverseReverseCoefficients(s: Sde, scoreFn: ScoreFn, other: ScoreFn, x: seq<real>, t: real)
    requires s.Brownian? && s.t0 != s.tf
    ensures var r := Reverse(Reverse(s, scoreFn), other);
            T0(r) == T0(s) && Tf(r) == Tf(s) && Coefficients(r, x, t) == Coefficients(s, x, t)
  {
  }
}
