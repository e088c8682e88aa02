/** The arithmetic of the three loss estimators of
    riemannian_score_sde/losses.py: denoising score matching (DSM), implicit
    score matching (ISM) and the Moser-flow loss.

    What the estimators draw or differentiate comes in as values: the sampled
    times `ts` (which the source draws uniformly from [t0 + eps, tf)), the
    model's scores on the batch and the state it returns, the target gradients
    ∇ log p(x_t | x_0), the Hutchinson divergences, the metric's squared norms
    and the base densities. A batch is a sequence of examples, an example's
    score a flat vector. */
module Losses {
  import opened Vectors
  import opened RiemannianSde

  /** A loss together with the model state to thread on. */
  datatype LossResult<S> = LossResult(loss: real, state: S)

  /** reduce_op: jnp.mean when reduce_mean holds, otherwise half the sum. */
  function Reduce(reduceMean: bool, v: seq<real>): real
    requires reduceMean ==> |v| > 0
  {
    if reduceMean then Mean(v) else 0.5 * Sum(v)
  }

  /** Every sampled time lies in [t0 + eps, tf), the range random.uniform draws from. */
  predicate SampledTimes(s: Sde, eps: real, ts: seq<real>)
  {
    forall i :: 0 <= i < |ts| ==> T0(s) + eps <= ts[i] < Tf(s)
  }

  /** g(t)² at t, from coefficients(zeros_like(x_0), t)[1] ** 2. */
  function DiffusionSquared(s: Sde, x0: seq<real>, t: real): (r: real)
    requires T0(s) != Tf(s) && ScoresFit(s, Zeros(|x0|), t)
    ensures s.Brownian? ==> r == BetaT(s, t)
  {
    Coefficients(s, Zeros(|x0|), t).1.squared
  }

  // ---------------------------------------------------------------------
  // Denoising score matching

  /** Shapes a DSM batch must agree on: one time, one data point, one score and
      one target per example; score and target of one length, non-empty when
      reduced by a mean. */
  predicate DsmBatch(s: Sde, reduceMean: bool, likeW: bool,
                     x0: seq<seq<real>>, scores: seq<seq<real>>, targets: seq<seq<real>>, ts: seq<real>)
  {
    && |x0| == |scores| == |targets| == |ts| > 0
    && T0(s) != Tf(s)
    && (forall i :: 0 <= i < |scores| ==> |scores[i]| == |targets[i]|)
    && (reduceMean ==> forall i :: 0 <= i < |scores| ==> |scores[i]| > 0)
    && (likeW ==> forall i :: 0 <= i < |ts| ==> ScoresFit(s, Zeros(|x0[i]|), ts[i]))
  }

  /** One example's DSM loss. Without likelihood weighting score and target are
      both multiplied by the marginal std before squaring; with it the reduced
      squared error is multiplied by g(t)². */
  function DsmExample(s: Sde, reduceMean: bool, likeW: bool, exp: real -> real, sqrt: real -> real,
                      x0: seq<real>, score: seq<real>, target: seq<real>, t: real): real
    requires T0(s) != Tf(s)
    requires |score| == |target| && (reduceMean ==> |score| > 0)
    requires likeW ==> ScoresFit(s, Zeros(|x0|), t)
  {
    if !likeW then
      var std := MarginalProb(s, Zeros(|score|), t, exp, sqrt).1;
      Reduce(reduceMean, Squares(Sub(Scale(std, score), Scale(std, target))))
    else
      Reduce(reduceMean, Squares(Sub(score, target))) * DiffusionSquared(s, x0, t)
  }

  function DsmLosses(s: Sde, reduceMean: bool, likeW: bool, exp: real -> real, sqrt: real -> real,
                     x0: seq<seq<real>>, scores: seq<seq<real>>, targets: seq<seq<real>>, ts: seq<real>): (r: seq<real>)
    requires DsmBatch(s, reduceMean, likeW, x0, scores, targets, ts)
    ensures |r| == |ts|
  {
    seq(|ts|, i requires 0 <= i < |ts| =>
      DsmExample(s, reduceMean, likeW, exp, sqrt, x0[i], scores[i], targets[i], ts[i]))
  }

  /** get_dsm_loss_fn's loss_fn with s_zero: the batch mean of the per-example
      losses, returned with the model's new state. */
  function DsmLoss<S>(s: Sde, reduceMean: bool, likeW: bool, eps: real, exp: real -> real, sqrt: real -> real,
                      x0: seq<seq<real>>, scores: seq<seq<real>>, newState: S,
                      targets: seq<seq<real>>, ts: seq<real>): (r: LossResult<S>)
    requires DsmBatch(s, reduceMean, likeW, x0, scores, targets, ts)
    requires SampledTimes(s, eps, ts)
    ensures r.state == newState
  {
    LossResult(Mean(DsmLosses(s, reduceMean, likeW, exp, sqrt, x0, scores, targets, ts)), newState)
  }

  // ---------------------------------------------------------------------
  // Implicit score matching

  predicate IsmBatch(s: Sde, likeW: bool, x0: seq<seq<real>>, sqNorms: seq<real>, divs: seq<real>, ts: seq<real>)
  {
    && |x0| == |sqNorms| == |divs| == |ts| > 0
    && T0(s) != Tf(s)
    && (likeW ==> forall i :: 0 <= i < |ts| ==> ScoresFit(s, Zeros(|x0[i]|), ts[i]))
  }

  /** One example's ISM loss: half the squared norm of the score plus its divergence,
      times g(t)² under likelihood weighting. */
  function IsmExample(s: Sde, likeW: bool, x0: seq<real>, sqNorm: real, div: real, t: real): real
    requires T0(s) != Tf(s)
    requires likeW ==> ScoresFit(s, Zeros(|x0|), t)
  {
    var loss := 0.5 * sqNorm + div;
    if likeW then loss * DiffusionSquared(s, x0, t) else loss
  }

  function IsmLosses(s: Sde, likeW: bool, x0: seq<seq<real>>, sqNorms: seq<real>, divs: seq<real>, ts: seq<real>): (r: seq<real>)
    requires IsmBatch(s, likeW, x0, sqNorms, divs, ts)
    ensures |r| == |ts|
  {
    seq(|ts|, i requires 0 <= i < |ts| => IsmExample(s, likeW, x0[i], sqNorms[i], divs[i], ts[i]))
  }

  /** get_ism_loss_fn's loss_fn: the batch mean of the per-example losses with the model's new state. */
  function IsmLoss<S>(s: Sde, likeW: bool, eps: real, x0: seq<seq<real>>, sqNorms: seq<real>, divs: seq<real>,
                      newState: S, ts: seq<real>): (r: LossResult<S>)
    requires IsmBatch(s, likeW, x0, sqNorms, divs, ts)
    requires SampledTimes(s, eps, ts)
    ensures r.state == newState
  {
    LossResult(Mean(IsmLosses(s, likeW, x0, sqNorms, divs, ts)), newState)
  }

  // ---------------------------------------------------------------------
  // Moser flow

  /** mu at a point: base density minus the divergence of the drift (at time zero). */
  function Mu(baseProb: real, divDrift: real): real
  {
    baseProb - divDrift
  }

  /** The clamp of mu into mu_plus = max(eps, mu) and mu_minus = eps − min(eps, mu). */
  function MuClamp(eps: real, mu: real): (r: (real, real))
    ensures r.0 >= eps && r.1 >= 0.0
    ensures r.0 - r.1 == mu
    ensures mu >= eps ==> r == (mu, 0.0)
    ensures mu < eps ==> r == (eps, eps - mu)
  {
    var muPlus := if eps >= mu then eps else mu;
    var muMinus := eps - (if eps <= mu then eps else mu);
    (muPlus, muMinus)
  }

  /** log mu_plus at every data point. */
  function LogMuPlus(eps: real, log: real -> real, baseProb: seq<real>, divDrift: seq<real>): (r: seq<real>)
    requires |baseProb| == |divDrift|
    ensures |r| == |baseProb|
  {
    seq(|baseProb|, i requires 0 <= i < |baseProb| => log(MuClamp(eps, Mu(baseProb[i], divDrift[i])).0))
  }

  /** mu_minus / prior_prob at every base sample. */
  function WeightedDeficits(eps: real, priorProb: seq<real>, divDrift: seq<real>): (r: seq<real>)
    requires |priorProb| == |divDrift|
    requires forall k :: 0 <= k < |priorProb| ==> priorProb[k] > 0.0
    ensures |r| == |priorProb|
    ensures forall k :: 0 <= k < |r| ==> r[k] >= 0.0
  {
    seq(|priorProb|, k requires 0 <= k < |priorProb| =>
      MuClamp(eps, Mu(priorProb[k], divDrift[k])).1 / priorProb[k])
  }

  /** The penalty alpha_m · volume_m, volume_m the mean weighted deficit over the K samples. */
  function MoserPenalty(eps: real, alphaM: real, priorProb: seq<real>, divDrift: seq<real>): real
    requires |priorProb| == |divDrift| > 0
    requires forall k :: 0 <= k < |priorProb| ==> priorProb[k] > 0.0
  {
    alphaM * Mean(WeightedDeficits(eps, priorProb, divDrift))
  }

  /** get_moser_loss_fn's loss_fn: −mean(log mu_plus) over the data plus the
      penalty over K samples of the base distribution, whose densities are
      `priorProb` (each exp of a log-density, so positive). The state is
      handed back as it came. */
  function MoserLoss<S>(eps: real, alphaM: real, log: real -> real,
                        dataBaseProb: seq<real>, dataDiv: seq<real>,
                        priorProb: seq<real>, sampleDiv: seq<real>, states: S): (r: LossResult<S>)
    requires |dataBaseProb| == |dataDiv| > 0
    requires |priorProb| == |sampleDiv| > 0
    requires forall k :: 0 <= k < |priorProb| ==> priorProb[k] > 0.0
    ensures r.state == states
  {
    var logProb := Mean(LogMuPlus(eps, log, dataBaseProb, dataDiv));
    LossResult(-logProb + MoserPenalty(eps, alphaM, priorProb, sampleDiv), states)
  }

  // ---------------------------------------------------------------------
  // Reduction

  /** The half-sum reduction is the mean scaled by half the length. */
  lemma HalfSumIsScaledMean(v: seq<real>)
    requires |v| > 0
    ensures Reduce(false, v) == 0.5 * (|v| as real) * Mean(v)
  {
  }

  /** Either reduction of a vector with no negative entry is non-negative. */
  lemma ReduceNonNegative(reduceMean: bool, v: seq<real>)
    requires reduceMean ==> |v| > 0
    requires forall i :: 0 <= i < |v| ==> v[i] >= 0.0
    ensures Reduce(reduceMean, v) >= 0.0
  {
    SumNonNegative(v);
  }

  /** Either reduction commutes with scaling by a constant. */
  lemma ReduceScale(reduceMean: bool, c: real, v: seq<real>)
    requires reduceMean ==> |v| > 0
    ensures Reduce(reduceMean, Scale(c, v)) == c * Reduce(reduceMean, v)
  {
    SumScale(c, v);
  }

  // ---------------------------------------------------------------------
  // DSM properties

  /** Without likelihood weighting the per-example loss is std² times the reduced
      squared error, std scaling score and target alike. */
  lemma DsmExampleStdScaled(s: Sde, reduceMean: bool, exp: real -> real, sqrt: real -> real,
                            x0: seq<real>, score: seq<real>, target: seq<real>, t: real)
    requires T0(s) != Tf(s)
    requires |score| == |target| && (reduceMean ==> |score| > 0)
    ensures var std := MarginalProb(s, score, t, exp, sqrt).1;
            DsmExample(s, reduceMean, false, exp, sqrt, x0, score, target, t)
              == std * std * Reduce(reduceMean, Squares(Sub(score, target)))
  {
    var std := MarginalProb(s, score, t, exp, sqrt).1;
    assert std == MarginalProb(s, Zeros(|score|), t, exp, sqrt).1;
    ScaledSquaredError(std, score, target);
    ReduceScale(reduceMean, std * std, Squares(Sub(score, target)));
  }

  /** Squaring the difference of two std-scaled vectors scales the squared difference by std². */
  lemma ScaledSquaredError(std: real, score: seq<real>, target: seq<real>)
    requires |score| == |target|
    ensures Squares(Sub(Scale(std, score), Scale(std, target))) == Scale(std * std, Squares(Sub(score, target)))
  {
    var scaled := Squares(Sub(Scale(std, score), Scale(std, target)));
    var plain := Squares(Sub(score, target));
    forall i | 0 <= i < |score|
      ensures scaled[i] == Scale(std * std, plain)[i]
    {
      SquareOfScaledDifference(std, score[i], target[i]);
    }
  }

  lemma SquareOfScaledDifference(c: real, a: real, b: real)
    ensures (c * a - c * b) * (c * a - c * b) == c * c * ((a - b) * (a - b))
  {
    assert c * a - c * b == c * (a - b);
  }

  /** With likelihood weighting on a Brownian SDE the per-example loss is the
      reduced squared error times beta_t(t). */
  lemma DsmExampleLikelihoodWeighted(s: Sde, reduceMean: bool, exp: real -> real, sqrt: real -> real,
                                     x0: seq<real>, score: seq<real>, target: seq<real>, t: real)
    requires s.Brownian? && s.t0 != s.tf
    requires |score| == |target| && (reduceMean ==> |score| > 0)
    ensures DsmExample(s, reduceMean, true, exp, sqrt, x0, score, target, t)
         == Reduce(reduceMean, Squares(Sub(score, target))) * BetaT(s, t)
  {
  }

  /** One example's DSM loss is non-negative: always without likelihood
      weighting, and with it when g(t)² = beta_t(t) is. */
  lemma DsmExampleNonNegative(s: Sde, reduceMean: bool, likeW: bool, exp: real -> real, sqrt: real -> real,
                              x0: seq<real>, score: seq<real>, target: seq<real>, t: real)
    requires T0(s) != Tf(s)
    requires |score| == |target| && (reduceMean ==> |score| > 0)
    requires likeW ==> s.Brownian? && BetaT(s, t) >= 0.0
    ensures DsmExample(s, reduceMean, likeW, exp, sqrt, x0, score, target, t) >= 0.0
  {
    var plain := Squares(Sub(score, target));
    NonNegativeSquares(Sub(score, target));
    ReduceNonNegative(reduceMean, plain);
    if likeW {
      DsmExampleLikelihoodWeighted(s, reduceMean, exp, sqrt, x0, score, target, t);
      MulNonNegative(Reduce(reduceMean, plain), BetaT(s, t));
    } else {
      DsmExampleStdScaled(s, reduceMean, exp, sqrt, x0, score, target, t);
      var std := MarginalProb(s, score, t, exp, sqrt).1;
      SquareNonNegative(std);
      MulNonNegative(std * std, Reduce(reduceMean, plain));
    }
  }

  /** Under likelihood weighting on a Brownian SDE with beta_0 ≥ 0 and
      beta_f ≥ 0 (in either order) and times sampled in [t0 + eps, tf) with
      eps ≥ 0, and always without it, the DSM loss is non-negative. */
  lemma DsmLossNonNegative<S>(s: Sde, reduceMean: bool, likeW: bool, eps: real, exp: real -> real, sqrt: real -> real,
                              x0: seq<seq<real>>, scores: seq<seq<real>>, newState: S,
                              targets: seq<seq<real>>, ts: seq<real>)
    requires DsmBatch(s, reduceMean, likeW, x0, scores, targets, ts)
    requires SampledTimes(s, eps, ts)
    requires likeW ==> s.Brownian? && 0.0 <= s.beta0 && 0.0 <= s.betaf && eps >= 0.0
    ensures DsmLoss(s, reduceMean, likeW, eps, exp, sqrt, x0, scores, newState, targets, ts).loss >= 0.0
  {
    var losses := DsmLosses(s, reduceMean, likeW, exp, sqrt, x0, scores, targets, ts);
    forall i | 0 <= i < |ts|
      ensures losses[i] >= 0.0
    {
      if likeW {
        BetaTNonNegative(s, ts[i]);
      }
      DsmExampleNonNegative(s, reduceMean, likeW, exp, sqrt, x0[i], scores[i], targets[i], ts[i]);
    }
    MeanNonNegative(losses);
  }

  lemma SquareNonNegative(a: real)
    ensures a * a >= 0.0
  {
  }

  lemma NonNegativeSquares(v: seq<real>)
    ensures forall i :: 0 <= i < |v| ==> Squares(v)[i] >= 0.0
  {
  }

  lemma MulNonNegative(a: real, b: real)
    requires a >= 0.0 && b >= 0.0
    ensures a * b >= 0.0
  {
  }

  /** A doubled DSM batch is still a batch, with times in the same range. */
  lemma DsmBatchDoubled(s: Sde, reduceMean: bool, likeW: bool, eps: real,
                        x0: seq<seq<real>>, scores: seq<seq<real>>, targets: seq<seq<real>>, ts: seq<real>)
    requires DsmBatch(s, reduceMean, likeW, x0, scores, targets, ts)
    requires SampledTimes(s, eps, ts)
    ensures DsmBatch(s, reduceMean, likeW, x0 + x0, scores + scores, targets + targets, ts + ts)
    ensures SampledTimes(s, eps, ts + ts)
  {
    var n := |ts|;
    forall i | n <= i < 2 * n
      ensures (x0 + x0)[i] == x0[i - n] && (scores + scores)[i] == scores[i - n]
      ensures (targets + targets)[i] == targets[i - n] && (ts + ts)[i] == ts[i - n]
    {
    }
  }

  /** Doubling the batch with identical copies of every example leaves the DSM loss unchanged. */
  lemma DsmLossDoubledBatch<S>(s: Sde, reduceMean: bool, likeW: bool, eps: real, exp: real -> real, sqrt: real -> real,
                               x0: seq<seq<real>>, scores: seq<seq<real>>, newState: S,
                               targets: seq<seq<real>>, ts: seq<real>)
    requires DsmBatch(s, reduceMean, likeW, x0, scores, targets, ts)
    requires SampledTimes(s, eps, ts)
    ensures DsmBatch(s, reduceMean, likeW, x0 + x0, scores + scores, targets + targets, ts + ts)
    ensures SampledTimes(s, eps, ts + ts)
    ensures DsmLoss(s, reduceMean, likeW, eps, exp, sqrt, x0 + x0, scores + scores, newState, targets + targets, ts + ts)
         == DsmLoss(s, reduceMean, likeW, eps, exp, sqrt, x0, scores, newState, targets, ts)
  {
    DsmBatchDoubled(s, reduceMean, likeW, eps, x0, scores, targets, ts);
    var n := |ts|;
    var single := DsmLosses(s, reduceMean, likeW, exp, sqrt, x0, scores, targets, ts);
    var double := DsmLosses(s, reduceMean, likeW, exp, sqrt, x0 + x0, scores + scores, targets + targets, ts + ts);
    forall i | 0 <= i < 2 * n
      ensures double[i] == (single + single)[i]
    {
      var j := if i < n then i else i - n;
      assert (x0 + x0)[i] == x0[j] && (scores + scores)[i] == scores[j];
      assert (targets + targets)[i] == targets[j] && (ts + ts)[i] == ts[j];
    }
    assert double == single + single;
    MeanDoubled(single);
  }

  // ---------------------------------------------------------------------
  // ISM properties

  /** With likelihood weighting on a Brownian SDE the per-example ISM loss is
      beta_t(t)·(0.5·sq_norm + div). */
  lemma IsmExampleLikelihoodWeighted(s: Sde, x0: seq<real>, sqNorm: real, div: real, t: real)
    requires s.Brownian? && s.t0 != s.tf
    ensures IsmExample(s, true, x0, sqNorm, div, t) == (0.5 * sqNorm + div) * BetaT(s, t)
  {
  }

  /** Without weighting the ISM loss splits into half the mean squared norm plus
      the mean divergence. */
  lemma IsmLossSplits<S>(s: Sde, eps: real, x0: seq<seq<real>>, sqNorms: seq<real>, divs: seq<real>,
                         newState: S, ts: seq<real>)
    requires IsmBatch(s, false, x0, sqNorms, divs, ts)
    requires SampledTimes(s, eps, ts)
    ensures IsmLoss(s, false, eps, x0, sqNorms, divs, newState, ts).loss == 0.5 * Mean(sqNorms) + Mean(divs)
  {
    var losses := IsmLosses(s, false, x0, sqNorms, divs, ts);
    assert losses == Add(Scale(0.5, sqNorms), divs);
    MeanAdd(Scale(0.5, sqNorms), divs);
    MeanScale(0.5, sqNorms);
  }

  /** Doubling the batch with identical copies leaves the ISM loss unchanged. */
  lemma IsmLossDoubledBatch<S>(s: Sde, likeW: bool, eps: real, x0: seq<seq<real>>, sqNorms: seq<real>,
                               divs: seq<real>, newState: S, ts: seq<real>)
    requires IsmBatch(s, likeW, x0, sqNorms, divs, ts)
    requires SampledTimes(s, eps, ts)
    ensures IsmBatch(s, likeW, x0 + x0, sqNorms + sqNorms, divs + divs, ts + ts)
    ensures SampledTimes(s, eps, ts + ts)
    ensures IsmLoss(s, likeW, eps, x0 + x0, sqNorms + sqNorms, divs + divs, newState, ts + ts)
         == IsmLoss(s, likeW, eps, x0, sqNorms, divs, newState, ts)
  {
    var n := |ts|;
    assert forall i :: n <= i < 2 * n ==>
      (x0 + x0)[i] == x0[i - n] && (sqNorms + sqNorms)[i] == sqNorms[i - n]
      && (divs + divs)[i] == divs[i - n] && (ts + ts)[i] == ts[i - n];
    var single := IsmLosses(s, likeW, x0, sqNorms, divs, ts);
    var double := IsmLosses(s, likeW, x0 + x0, sqNorms + sqNorms, divs + divs, ts + ts);
    assert double == single + single;
    MeanDoubled(single);
  }

  // ---------------------------------------------------------------------
  // Moser properties

  /** The penalty is non-negative when alpha_m is. */
  lemma MoserPenaltyNonNegative(eps: real, alphaM: real, priorProb: seq<real>, divDrift: seq<real>)
    requires |priorProb| == |divDrift| > 0
    requires forall k :: 0 <= k < |priorProb| ==> priorProb[k] > 0.0
    requires alphaM >= 0.0
    ensures MoserPenalty(eps, alphaM, priorProb, divDrift) >= 0.0
  {
    var w := WeightedDeficits(eps, priorProb, divDrift);
    MeanNonNegative(w);
    MulNonNegative(alphaM, Mean(w));
  }

  /** The Moser loss is −mean(log mu_plus) plus alpha_m·mean(mu_minus / prior_prob);
      when mu ≥ eps at every base sample the penalty vanishes, and when
      mu ≥ eps at every data point the log term reads mu itself. */
  lemma MoserLossWhenDensityValid<S>(eps: real, alphaM: real, log: real -> real,
                                     dataBaseProb: seq<real>, dataDiv: seq<real>,
                                     priorProb: seq<real>, sampleDiv: seq<real>, states: S)
    requires |dataBaseProb| == |dataDiv| > 0
    requires |priorProb| == |sampleDiv| > 0
    requires forall k :: 0 <= k < |priorProb| ==> priorProb[k] > 0.0
    requires forall i :: 0 <= i < |dataBaseProb| ==> Mu(dataBaseProb[i], dataDiv[i]) >= eps
    requires forall k :: 0 <= k < |priorProb| ==> Mu(priorProb[k], sampleDiv[k]) >= eps
    ensures MoserPenalty(eps, alphaM, priorProb, sampleDiv) == 0.0
    ensures MoserLoss(eps, alphaM, log, dataBaseProb, dataDiv, priorProb, sampleDiv, states).loss
         == -Mean(seq(|dataBaseProb|, i requires 0 <= i < |dataBaseProb| => log(dataBaseProb[i] - dataDiv[i])))
  {
    var w := WeightedDeficits(eps, priorProb, sampleDiv);
    assert w == Constant(|w|, 0.0);
    MeanConstant(|w|, 0.0);
    var logs := seq(|dataBaseProb|, i requires 0 <= i < |dataBaseProb| => log(dataBaseProb[i] - dataDiv[i]));
    var logPlus := LogMuPlus(eps, log, dataBaseProb, dataDiv);
    forall i | 0 <= i < |dataBaseProb|
      ensures logPlus[i] == logs[i]
    {
      assert MuClamp(eps, Mu(dataBaseProb[i], dataDiv[i])).0 == dataBaseProb[i] - dataDiv[i];
    }
    assert logPlus == logs;
  }
}
