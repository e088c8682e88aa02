# Riemannian score-based SDEs: schedule, time reversal and loss arithmetic

This project models, over exact reals, the arithmetic core of the
`riemannian_score_sde` package: the Brownian-motion SDE on a compact manifold
with its linear noise schedule, its time reversal by Anderson's formula, and
the way the three training losses (denoising score matching, implicit score
matching, Moser flow) combine the values they are given into one scalar.

- `Vectors.dfy`: sums, means and elementwise operations on `seq<real>`, with
  the lemmas the losses need: linearity, non-negativity, and that a duplicated
  vector has the same mean.
- `LinAlg.dfy`: matrices as sequences of rows. It defines the contraction
  `"...ij,...kj,...k->...i"` literally as Σ_j Σ_k G[i][j]·G[k][j]·s[k]. It
  proves this equals G·(Gᵀ·s) and (G·Gᵀ)·s. For c·I it equals c²·s.
- `RiemannianSde.dfy` (sde.py): `datatype Sde = Brownian(t0, tf, beta0, betaf)
  | ReverseBrownian(sde, scoreFn)`. Fields that the reverse object inherits
  are computed by `T0`, `Tf`, `Beta0` and `BetaF`. A reverse SDE's interval is
  the forward one swapped. Its betas are the defaults 0.1 and 20, because
  `ReverseBrownian.__init__` does not pass the forward betas on. Its
  `Coefficients` still delegate to the forward SDE, so the reverse drift and
  diffusion use the forward schedule. The model keeps both behaviours as they
  are (`ReverseScheduleIsMirroredDefault`, `ReverseBrownianCoefficients`).
- `Losses.dfy` (losses.py): `Reduce` (reduce_op) and the DSM, ISM and Moser
  losses. Their random or differentiated ingredients are inputs: sampled
  times, model scores and the model state the score function returns, target
  gradients, Hutchinson divergences, squared norms and base densities. The
  times satisfy the sampling range `t0 + eps <= t < tf` (`SampledTimes`).

A scalar diffusion `jnp.sqrt(beta)` is held by its square
(`ScalarDiffusion(squared)`). The source only ever multiplies it by itself:
in the einsum `"...,...,...i->...i"` and as `** 2` in the losses. The marginal
std, which DSM multiplies into score and target before squaring, is
`sqrt(1 - exp(2·log_mean_coeff))`. Here `sqrt` and `exp` are uninterpreted
function parameters. So are the log heat kernel, the base `log`, and the
manifold's log-volume, which is a real parameter.

The DSM loss follows the `s_zero` branch. In the other branch `delta_t` is
overwritten by `t` (riemannian_score_sde/losses.py:63), so its std is the same
std at `t` that the model uses.

`get_ism_loss_fn` accepts `reduce_mean` but never uses it, so `IsmLoss` has no
such parameter. Likewise `get_moser_loss_fn` accepts `alpha_p` but never uses
it (losses.py:143, 180: the `alpha_p * volume_p` term is commented out), so
`MoserLoss` has no such parameter.

`log_mean_coeff` and the elapsed time `s` (sde.py:27-29, 56) read the raw `t`
and ignore `t0` and `tf`; a reverse SDE also uses its default betas there. So
`s` is the integral of beta_t only on the unit interval
(`ElapsedTimeIntegratesSchedule` assumes t0 = 0 and tf = 1), and
`ElapsedTimeOffUnitInterval` exhibits the gap on [0, 2]. The Moser loss evaluates every divergence at time zero
(losses.py:161). The model's divergence inputs are those time-zero values.

## Model

| member | source | states |
|---|---|---|
| RiemannianSde.T0 | riemannian_score_sde/sde.py:72-73 | start of the SDE's own interval: t0 for a forward SDE, the forward tf for a reverse one; `Reverse` ensures the swap |
| RiemannianSde.Tf | riemannian_score_sde/sde.py:72-73 | end of the SDE's own interval: tf for a forward SDE, the forward t0 for a reverse one; `Reverse` ensures the swap |
| RiemannianSde.Beta0 | riemannian_score_sde/sde.py:7-11 | the constructor's beta_0 for a forward SDE and the default 0.1 for a reverse one (line 73 passes none); stated by `Reverse` and `ReverseScheduleIsMirroredDefault` |
| RiemannianSde.BetaF | riemannian_score_sde/sde.py:7-11 | the constructor's beta_f for a forward SDE and the default 20 for a reverse one (line 73 passes none); stated by `Reverse` and `ReverseScheduleIsMirroredDefault` |
| RiemannianSde.NormedTime | riemannian_score_sde/sde.py:15 | (t − t0)/(tf − t0); `BetaTConvex` proves it lies in [0, 1] on [t0, tf] and writes beta_t as the matching convex combination of the betas |
| RiemannianSde.BetaT | riemannian_score_sde/sde.py:14-16 | the linear schedule; its properties are the lemmas BetaTEndpoints, BetaTAffine, BetaTMonotone, BetaTBounded, BetaTConvex and BetaTNonNegative |
| RiemannianSde.BetaTEndpoints | riemannian_score_sde/sde.py:14-16 | beta_t(t0) = beta_0 and beta_t(tf) = beta_f whenever t0 ≠ tf |
| RiemannianSde.BetaTAffine | riemannian_score_sde/sde.py:14-16 | beta_t maps every affine combination of times to the same affine combination of values |
| RiemannianSde.BetaTMonotone | riemannian_score_sde/sde.py:14-16 | for t0 < tf and beta_0 ≤ beta_f, beta_t is nondecreasing in t |
| RiemannianSde.BetaTBounded | riemannian_score_sde/sde.py:14-16 | for t in [t0, tf] and beta_0 ≤ beta_f, beta_t lies in [beta_0, beta_f] |
| RiemannianSde.BetaTConvex | riemannian_score_sde/sde.py:14-16 | on [t0, tf] the normed time u is in [0, 1] and beta_t = (1 − u)·beta_0 + u·beta_f, for increasing and decreasing schedules alike |
| RiemannianSde.BetaTNonNegative | riemannian_score_sde/sde.py:14-16 | on [t0, tf] beta_t ≥ 0 whenever beta_0 ≥ 0 and beta_f ≥ 0, in either order |
| RiemannianSde.ReverseScheduleIsMirroredDefault | riemannian_score_sde/sde.py:72-73 | the reverse object's own beta_t at t equals the default-beta (0.1, 20) forward schedule on the same interval at t0 + tf − t: the forward betas are lost |
| RiemannianSde.Coefficients | riemannian_score_sde/sde.py:18-94 | the forward coefficients (lines 18-22) and the reverse ones, which delegate to the forward SDE (lines 78-94): the drift has x's length and the diffusion is scalar, recursively through reversals |
| RiemannianSde.BrownianCoefficients | riemannian_score_sde/sde.py:18-22 | forward drift is all zeros of x's length; diffusion squared is beta_t(t) |
| RiemannianSde.DiffusionAtEndpoints | riemannian_score_sde/sde.py:14-22 | diffusion² is beta_0 at t0 and beta_f at tf, for every x |
| RiemannianSde.ReverseDrift | riemannian_score_sde/sde.py:82-92 | with scalar diffusion g, each drift entry is f_i − g·g·score_i, and the result has f's length |
| RiemannianSde.ReverseDriftMatrix | riemannian_score_sde/sde.py:83-87 | with a full diffusion matrix G the reverse drift is f − G·(Gᵀ·score), equivalently f − (G·Gᵀ)·score |
| RiemannianSde.ReverseDriftBranchesAgree | riemannian_score_sde/sde.py:83-92 | the matrix branch with G = c·I gives the same drift as the scalar branch with g = c |
| LinAlg.Contract | riemannian_score_sde/sde.py:85-87 | the einsum "...ij,...kj,...k->...i" as the literal double sum Σ_j Σ_k G[i][j]·G[k][j]·s[k], one entry per row of G; `ContractIsGGtProduct` identifies it with G·Gᵀ·s |
| LinAlg.ContractIsGGtProduct | riemannian_score_sde/sde.py:85-87 | the einsum "...ij,...kj,...k->...i", written as the literal double sum, is G·(Gᵀ·s) and (G·Gᵀ)·s |
| RiemannianSde.ReverseCoefficientsScalar | riemannian_score_sde/sde.py:78-94 | a reverse SDE's diffusion is its forward SDE's, and its drift is forward drift − g²·score, entry by entry |
| RiemannianSde.ReverseBrownianCoefficients | riemannian_score_sde/sde.py:78-94 | reversing a Brownian SDE: drift_i = −beta_t(t)·score_i with the forward schedule; diffusion² = forward beta_t(t) |
| RiemannianSde.MarginalProb | riemannian_score_sde/sde.py:24-33 | mean is zeros of x's shape; std = sqrt(1 − exp(−s)) with s the elapsed time of marginal_log_prob |
| RiemannianSde.LogMeanCoeff | riemannian_score_sde/sde.py:27-29 | −0.25·t²·(βf − β0) − 0.5·t·β0 on the raw t; `ElapsedTimeIsLogMeanCoeff` ties it to the elapsed time s |
| RiemannianSde.ElapsedTime | riemannian_score_sde/sde.py:56 | the time s given to the heat kernel; its lemmas are ElapsedTimeIsLogMeanCoeff, ElapsedTimeNonNegative, ElapsedTimeIntegratesSchedule and ElapsedTimeOffUnitInterval |
| RiemannianSde.ElapsedTimeIsLogMeanCoeff | riemannian_score_sde/sde.py:56 | s = 2·(0.25·t²·(βf−β0) + 0.5·t·β0) equals −2·log_mean_coeff |
| RiemannianSde.ElapsedTimeNonNegative | riemannian_score_sde/sde.py:56 | s ≥ 0 for t ≥ 0 when 0 ≤ β0 ≤ βf |
| RiemannianSde.ElapsedTimeIntegratesSchedule | riemannian_score_sde/sde.py:56 | on the interval [0, 1], s(t2) − s(t1) is the exact integral (trapezoid) of beta_t over [t1, t2] |
| RiemannianSde.ElapsedTimeOffUnitInterval | riemannian_score_sde/sde.py:56 | for a Brownian SDE on [0, 2] with the default betas, s grows by 40 over the interval while beta_t integrates to 20.1: s ignores t0 and tf |
| RiemannianSde.MarginalLogProb | riemannian_score_sde/sde.py:53-57 | the heat kernel is evaluated at elapsed time −2·log_mean_coeff(t) |
| RiemannianSde.LimitingLogp | riemannian_score_sde/sde.py:62-63 | one entry per point, each −log volume |
| RiemannianSde.LimitingLogpMean | riemannian_score_sde/sde.py:62-63 | the limiting log-density averages to −log volume over any non-empty batch |
| RiemannianSde.Reverse | riemannian_score_sde/sde.py:65-97 | reversing a forward SDE keeps it and the score; the interval is swapped and the betas are the defaults. Reversing a reverse SDE returns its forward SDE |
| RiemannianSde.ReverseInvolution | riemannian_score_sde/sde.py:96-97 | reverse of reverse is exactly the original forward SDE, whatever the scores |
| RiemannianSde.ReverseReverseCoefficients | riemannian_score_sde/sde.py:96-97 | the doubly reversed SDE has the original interval and the original drift and diffusion at every (x, t) |
| Losses.Reduce | riemannian_score_sde/losses.py:27-31 | reduce_op: the mean, or half the sum; its properties are HalfSumIsScaledMean, ReduceNonNegative and ReduceScale |
| Losses.SampledTimes | riemannian_score_sde/losses.py:48-50 | every sampled time lies in [t0 + eps, tf); preserved by DsmBatchDoubled and assumed by DsmLoss, IsmLoss and DsmLossNonNegative |
| Losses.DiffusionSquared | riemannian_score_sde/losses.py:77 | g2 = coefficients(zeros_like(x_0), t)[1] ** 2 (also losses.py:130); on a Brownian SDE it is beta_t(t) |
| Losses.HalfSumIsScaledMean | riemannian_score_sde/losses.py:27-31 | the half-sum reduction of a length-n vector is 0.5·n·mean |
| Losses.ReduceNonNegative | riemannian_score_sde/losses.py:27-31 | either reduction of a vector with no negative entry is ≥ 0 |
| Losses.ReduceScale | riemannian_score_sde/losses.py:27-31 | either reduction commutes with scaling by a constant |
| Losses.DsmExample | riemannian_score_sde/losses.py:69-79 | one example's loss in both like_w branches; stated by DsmExampleStdScaled, DsmExampleLikelihoodWeighted and DsmExampleNonNegative |
| Losses.DsmLosses | riemannian_score_sde/losses.py:69-79 | one loss per sampled time; each entry is non-negative by DsmExampleNonNegative, their mean by DsmLossNonNegative, and doubled batches are stated by DsmLossDoubledBatch |
| Losses.DsmLoss | riemannian_score_sde/losses.py:33-82 | the DSM loss is returned with the score model's new state |
| Losses.DsmExampleStdScaled | riemannian_score_sde/losses.py:69-73 | without like_w, the per-example loss is std²·reduce((score − target)²) |
| Losses.DsmExampleLikelihoodWeighted | riemannian_score_sde/losses.py:75-79 | with like_w on a Brownian SDE, the per-example loss is reduce((score − target)²)·beta_t(t) |
| Losses.DsmExampleNonNegative | riemannian_score_sde/losses.py:69-79 | the per-example loss is ≥ 0: always without like_w, and with like_w when beta_t(t) ≥ 0 |
| Losses.DsmLossNonNegative | riemannian_score_sde/losses.py:48-81 | the DSM loss is ≥ 0 without like_w, and with like_w for β0 ≥ 0 and βf ≥ 0 (in either order) and eps ≥ 0, given times in [t0 + eps, tf) |
| Losses.DsmBatchDoubled | riemannian_score_sde/losses.py:48-50 | a batch doubled with identical copies is well shaped and its times stay in [t0 + eps, tf) |
| Losses.DsmLossDoubledBatch | riemannian_score_sde/losses.py:81 | doubling the batch with identical copies leaves the DSM loss unchanged |
| Losses.IsmExample | riemannian_score_sde/losses.py:127-131 | one example's 0.5·sq_norm + div, times g² under like_w; stated by IsmExampleLikelihoodWeighted |
| Losses.IsmLosses | riemannian_score_sde/losses.py:127-131 | one loss per sampled time; its mean is split by IsmLossSplits and kept under doubling by IsmLossDoubledBatch |
| Losses.IsmLoss | riemannian_score_sde/losses.py:127-134 | the ISM loss is returned with the score model's new state |
| Losses.IsmExampleLikelihoodWeighted | riemannian_score_sde/losses.py:127-131 | with like_w on a Brownian SDE, the per-example loss is (0.5·sq_norm + div)·beta_t(t) |
| Losses.IsmLossSplits | riemannian_score_sde/losses.py:127-133 | without like_w, the ISM loss is 0.5·mean(sq_norm) + mean(div) |
| Losses.IsmLossDoubledBatch | riemannian_score_sde/losses.py:133 | doubling the batch with identical copies leaves the ISM loss unchanged |
| Losses.Mu | riemannian_score_sde/losses.py:165 | mu = prob_base − div_drift; MuClamp and MoserLossWhenDensityValid state how it is clamped |
| Losses.MuClamp | riemannian_score_sde/losses.py:165-167 | mu_plus ≥ eps, mu_minus ≥ 0, mu_plus − mu_minus = mu; (mu, 0) when mu ≥ eps, else (eps, eps − mu) |
| Losses.LogMuPlus | riemannian_score_sde/losses.py:171-172 | log mu_plus at every data point, one entry per point; MoserLossWhenDensityValid reads it as log mu where mu ≥ eps |
| Losses.WeightedDeficits | riemannian_score_sde/losses.py:178-179 | mu_minus / prior_prob at every base sample, one entry per sample, each ≥ 0 |
| Losses.MoserPenalty | riemannian_score_sde/losses.py:179-180 | alpha_m times the mean weighted deficit; MoserPenaltyNonNegative and MoserLossWhenDensityValid state its sign and when it vanishes |
| Losses.MoserLoss | riemannian_score_sde/losses.py:171-185 | the Moser loss returns the input state unchanged |
| Losses.MoserPenaltyNonNegative | riemannian_score_sde/losses.py:176-180 | the penalty alpha_m·mean(mu_minus / prior_prob) is ≥ 0 when alpha_m ≥ 0 and every prior_prob > 0 |
| Losses.MoserLossWhenDensityValid | riemannian_score_sde/losses.py:171-182 | when mu ≥ eps at every base sample the penalty is 0; when in addition mu ≥ eps at every data point, the loss is −mean(log mu) |

## Left out

- Random draws are not modelled: key splitting, `random.uniform` for the times, `marginal_sample`, `manifold.random_walk`, `random_uniform`, `base.sample`, `sample_limiting_distribution` and the Hutchinson noise `div_noise`. Their results are inputs. The sampled times are constrained by `SampledTimes`.
- The Moser `mu` closure reads `step_rng` when it is called. Its second call therefore draws its Hutchinson noise from the same key as `base.sample` (losses.py:174-178). This key reuse is outside a model without randomness.
- The Euler–Maruyama fallback of `marginal_sample` (sde.py:41-50) is left out. It calls a numerical integrator that is not part of this model.
- Automatic differentiation is not modelled (`get_div_fn`, `get_score_fn`, `get_ode_drift_fn`, `grad_marginal_log_prob`). Neither is the manifold geometry (`log_heat_kernel`, `metric.squared_norm`, `metric.log_volume`, `base.log_prob`). Their values are inputs or uninterpreted functions.
- The `s_zero=False` branch of the DSM loss (losses.py:59-64) is left out. It depends on the sampler's history and `varhadan_exp`, which are not part of this model.
- `jnp.sqrt`, `jnp.exp` and `jnp.log` are uninterpreted, and the model uses exact reals. Floating-point rounding, NaN and infinity are not modelled. So `sqrt(beta)**2` is taken to be `beta`, including for a negative beta, where the source gives NaN.
- RiemannianSde.BetaT: requires t0 ≠ tf, where the source divides by zero and yields a non-finite value.
- Vectors.Mean: requires a non-empty vector. DSM, ISM and Moser therefore require a non-empty batch (and Moser K > 0), where `jnp.mean` of nothing gives NaN.
- Losses.MoserLoss: requires every `prior_prob` to be positive. It is `exp` of a log-density in the source. Division by zero is not modelled.
- JAX shape mechanics (`reshape`, `expand_dims`, `batch_mul`, broadcasting) are not modelled. Each example is a flat vector, and shapes that must agree are preconditions (`DsmBatch`, `IsmBatch`, `ScoresFit`). The commented-out `vmap` is also left out.
- `full_diffusion_matrix` is a property of the base SDE class, which is not part of this model. The model selects the einsum by the diffusion's kind instead. A Brownian SDE always has a scalar diffusion (`Coefficients` ensures it), so the matrix branch is proved on its own in `ReverseDriftMatrix`.
- `reverse` on a reverse SDE takes no score in the source. The model's `Reverse` takes one and ignores it there.
