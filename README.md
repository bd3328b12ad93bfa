# Hybrid LinUCB SMT portfolio — a Dafny model

`split_hybridlinucb.py` trains a portfolio of four SMT solvers (Z3, CVC4,
Boolector, Yices) on a sample of problems. For each problem it normalises
the problem's feature point against a sliding window of recent points,
scores every solver with a hybrid LinUCB bandit, and tries the solvers in
ascending score order. Each attempt has a budget of `TIMEOUT / len(SOLVERS)`
(15 s), and the dispatch stops at the first `sat` or `unsat`. Each attempt
earns the reward `(1 - K*e/T)^4`. The round is logged in `all`, and also in
`solved` if it was answered. Finally the bandit's shared statistics
(`A_0`, `B_0`) and the per-solver ones (`As`, `Bs`, `Cs`) are updated once
per attempt, in attempt order.

The model is split into modules that follow the script's pieces:

- `Config` (config.dfy): the constants `TIMEOUT`, `SOLVERS`, the budget per
  attempt, the window capacity and the divisor's small constant `DIVISOR_SLACK`
  (1e-10).
- `Classify` (classify.dfy): `output2result`, the problem-name shortening
  and the rule in `run_problem` that decides which elapsed time an attempt
  is charged.
- `RewardRule` (reward.dfy): the reward formula in exact real arithmetic.
- `Dispatch` (dispatch.dfy): `add_strategy`. `Attempts` is the
  specification of the attempts a dispatch makes. The `RunLog` class holds
  the `solved` and `all` lists, and its `AddStrategy` method keeps the
  source's loop with its early `break`.
- `Ranking` (ranking.dfy): `np.argsort` over the solver scores, as an
  in-place selection sort on an array of indices.
- `Window` (window.dfy): the `last_five` buffer as a class with an
  in-place `Normalize`.
- `Matrices` (matrices.dfy): square matrices and vectors as sequences of
  reals.
- `Learner` (learner.dfy): the bandit statistics. `Step` and `Replay`
  specify the update, and the `LinUcb` class performs it in place.
- `Portfolio` (portfolio.dfy): one iteration of `main`'s loop, which
  composes the pieces above.

The subprocess and the clock are a parameter `run: nat -> HarnessRun`: for
each solver index it gives either `Finished(stdout, stderr, elapsed)` or
`TimedOut`. Matrix inversion (`np.linalg.inv`) is a parameter
`inv: Matrix -> Matrix`, of which only one thing is assumed: it maps d-by-d
matrices to d-by-d matrices. The solver scores (`ps`) are inputs.

## Model

| member | source | states |
|---|---|---|
| Config.BudgetSplit | split_hybridlinucb.py:19-39 | The portfolio has four solvers, so each attempt's budget `TIMEOUT / len(SOLVERS)` is 15 seconds and the four budgets make up the whole minute |
| Classify.Text | split_hybridlinucb.py:27-31 | A verdict is definitive exactly when its reported text is "sat" or "unsat", the texts the dispatch tests for |
| Classify.Output2Result | split_hybridlinucb.py:63-74 | The classifier never produces the timeout result; with `ErrorIffNoKeyword` it produces exactly one of unsat, sat, unknown, error |
| Classify.UnsatWins | split_hybridlinucb.py:63-67 | Any output containing "unsat" or "UNSAT" is classified unsat, even though it then also contains "sat" or "SAT": the order of the tests decides |
| Classify.ErrorIffNoKeyword | split_hybridlinucb.py:63-74 | The result is error if and only if none of the six keywords occurs in the output |
| Classify.TextRoundTrip | split_hybridlinucb.py:27-31 | A check of the constants themselves: classifying a result constant's own text gives that result back, except the timeout text, which mentions no keyword and reads as error |
| Classify.ProblemName | split_hybridlinucb.py:113 | The name recorded for a problem (`split("/", 2)[-1]`) is what remains of its path once some leading characters are dropped |
| Classify.SkipIsSlice | split_hybridlinucb.py:113 | Dropping k leading characters one at a time leaves exactly the slice after position k, so the name is a suffix of the path |
| Classify.ProblemNameSuffix | split_hybridlinucb.py:113 | The name is exactly what follows the second '/' of the path, or the first when there is one, or the whole path when there is none: the part dropped in front of it holds min(2, number of '/') slashes and, when not empty, ends with '/' |
| Classify.RunProblem | split_hybridlinucb.py:94-116 | An attempt keeps its measured time only for sat or unsat. Every other result, a timeout included, is charged exactly TIMEOUT / len(SOLVERS). The result is timeout exactly when the harness killed the run, and otherwise it is the classification of stdout followed by stderr |
| Classify.ChargedWithinBudget | split_hybridlinucb.py:99-115 | Whenever measured times lie within the budget, charged times lie in [0, 15] |
| RewardRule.Reward | split_hybridlinucb.py:170 | The reward is never negative, whatever the elapsed time, since it is a fourth power |
| RewardRule.RewardBounds | split_hybridlinucb.py:170 | For an elapsed time in [0, T/K], the reward lies in [0, 1] |
| RewardRule.RewardAntitone | split_hybridlinucb.py:170 | On [0, T/K], the reward does not increase with elapsed time |
| RewardRule.RewardEndpoints | split_hybridlinucb.py:170 | An instant answer earns 1. A charge of the full budget, which every undecided attempt gets, earns exactly 0 |
| RewardRule.RewardExample | split_hybridlinucb.py:170 | A check at a single point: a 3-second answer earns (1 - 4·3/60)^4 = 0.4096 |
| Dispatch.Attempts | split_hybridlinucb.py:165-173 | A dispatch makes at most one attempt per solver of the order, and at least one when the order is not empty |
| Dispatch.Rewards | split_hybridlinucb.py:170 | The round yields exactly one reward per attempt |
| Dispatch.RewardsAt | split_hybridlinucb.py:170 | The k-th reward is `(1 - K*e/T)^4` of the k-th attempt's charged time, so the rewards follow attempt order |
| Dispatch.TotalElapsedBounds | split_hybridlinucb.py:169 | The time recorded for a round is the sum of its charged times; when each charge lies in [0, BUDGET], the sum lies in [0, attempts · BUDGET] |
| Dispatch.AttemptsShape | split_hybridlinucb.py:165-173 | Attempt k runs the k-th solver of the order. Every attempt before the last is neither sat nor unsat. If fewer attempts than solvers are made, the last one answered, so an unanswered round tries every solver |
| Dispatch.AnsweredIffSomeSolverAnswers | split_hybridlinucb.py:165-173 | A round ends with sat or unsat if and only if some solver of the order would answer |
| Dispatch.UndecidedEarnNothing | split_hybridlinucb.py:165-173 | Every attempt that is neither sat nor unsat earns reward 0, the last attempt of an unanswered round included; hence every reward before the last one is 0 |
| Dispatch.RewardsInUnitInterval | split_hybridlinucb.py:165-173 | When measured times stay within the budget, every reward of a round lies in [0, 1] |
| Dispatch.AllTimeOut | split_hybridlinucb.py:165-173 | When every solver times out, the round tries the whole order and is charged the full budget once per solver |
| Dispatch.FirstAnswerStops | split_hybridlinucb.py:171-173 | When the first solver answers, the round is that single attempt |
| Dispatch.ContinueMatchesAttempts | split_hybridlinucb.py:165-173 | Running the loop to its end appends the attempts' rewards, adds their charged times, and stops at the last attempt's solver and verdict |
| Dispatch.RoundEntry | split_hybridlinucb.py:172-174 | The entry a round logs keeps the problem path and feature point; it names the invocation of some solver of the order together with that solver's own verdict, and its verdict is sat or unsat exactly when some solver of the order answers |
| Dispatch.RunLog.constructor | split_hybridlinucb.py:186-187 | The logs start empty |
| Dispatch.RunLog.AddStrategy | split_hybridlinucb.py:160-175 | Returns one reward per attempt, in order. Appends exactly one entry to `all`, recording the last solver's invocation, the sum of the charged times and the last verdict. Appends the same entry to `solved` exactly when that verdict is sat or unsat |
| Ranking.Argsort | split_hybridlinucb.py:216 | The order is a permutation of the solver indices, and the scores taken in that order are non-decreasing |
| Ranking.PermutationExactlyOnce | split_hybridlinucb.py:216 | The order lists every solver exactly once and nothing else |
| Ranking.LowestFirst | split_hybridlinucb.py:216-217 | The solver tried first has the lowest score of all |
| Window.ColumnMax | split_hybridlinucb.py:203 | The column maximum bounds every entry of that column and is attained by one of them |
| Window.Divisor | split_hybridlinucb.py:203 | Each entry of the divisor is at least every entry of its column plus 1e-10, and equals one of them plus 1e-10; for a non-negative window it is at least 1e-10 |
| Window.Divide | split_hybridlinucb.py:203 | The entry-wise quotient has one entry per feature, and multiplying each entry back by its divisor gives the original feature |
| Window.NormalisedInUnitInterval | split_hybridlinucb.py:203 | In exact real arithmetic, a non-negative point divided by the window's column maxima plus 1e-10 lies in [0, 1) in every entry |
| Window.LastFive.constructor | split_hybridlinucb.py:199 | The buffer starts empty |
| Window.LastFive.Normalize | split_hybridlinucb.py:201-204 | The point is divided entry by entry by the maximum over the last (up to) six points, itself included, plus 1e-10. The buffer then holds exactly the last (up to) five points seen, so it never holds more than five |
| Learner.Initial | split_hybridlinucb.py:194-198 | The start state is consistent: identity A_0 and As, zero B_0, Bs and Cs, with Cs[k] = As[k] − I and As[k] symmetric |
| Learner.Step | split_hybridlinucb.py:219-227 | One update keeps every matrix d-by-d and every vector of length d |
| Learner.StepChangesOneArm | split_hybridlinucb.py:223-225 | One update changes only the chosen solver's statistics, adding x·xᵀ to As and Cs and reward·x to Bs |
| Learner.StepConsistent | split_hybridlinucb.py:223-225 | One update keeps Cs[k] = As[k] − I and As[k] symmetric for every solver |
| Learner.Replay | split_hybridlinucb.py:218-227 | The state after a round: one `Step` per attempt, for solver `choices[i]` with reward `rewards[i]`, in attempt order; every matrix stays d-by-d and every vector of length d |
| Learner.ReplayConsistent | split_hybridlinucb.py:218-227 | A whole round of updates keeps the invariant |
| Learner.ReplayUntriedArms | split_hybridlinucb.py:218-227 | A solver that was not attempted in the round keeps its As, Bs and Cs |
| Learner.LinUcb.constructor | split_hybridlinucb.py:194-198 | The learner starts in the initial state |
| Learner.LinUcb.Update | split_hybridlinucb.py:219-227 | The seven in-place assignments perform exactly one `Step`. The first correction is read from the solver's statistics before they change and the second after. The invariant is kept |
| Learner.LinUcb.Learn | split_hybridlinucb.py:218-227 | The update loop applies one step per attempt, in attempt order, and keeps the invariant |
| Portfolio.Round | split_hybridlinucb.py:200-227 | One iteration: the point is normalised against the window, the order is an ascending permutation of the solvers, the dispatch logs the round, the learner is updated by the round's rewards, and untried solvers keep their statistics |

## Left out

- Launching the solver process, `os.killpg`, the wait with a timeout and
  the wall-clock measurement in `run_problem` (split_hybridlinucb.py:77-110)
  are process I/O. They are replaced by the `run` parameter. The printing in
  `run_problem` is left out too.
- z3 probing and featurisation (`probe`, `featurize_problems`,
  `use_z3_solver`, `use_z3_tactic`) are calls into a foreign library. The
  raw feature point is an input of `Portfolio.Round`.
- The scores: `beta`, `thetas`, the variance term `ss` with its square root
  and `ALPHA` (split_hybridlinucb.py:206-215) are floating-point numerics
  over `np.linalg.inv`. The scores are an input of `Ranking.Argsort`.
- `np.linalg.inv` is an opaque parameter. Its correctness, invertibility
  of `A_0` and `As[k]`, and positive-definiteness are not modelled, so
  symmetry of `A_0` is not claimed either.
- Floating point: every quantity is an exact real. Rounding in the reward,
  the normalisation and the matrix updates is not modelled.
- Window.NormalisedInUnitInterval: the bound below 1 is an exact-real
  fact. In binary floating point, `x + 1e-10` rounds to `x` once `x` is
  large, so a large feature that is its column's maximum normalises to
  exactly 1.0.
- `glob`, the `np.random.choice` sampling of `TRAINING_SAMPLE` problems
  (split_hybridlinucb.py:151 and 180), the seed, pickling, the final
  printing and the per-round wall-clock timing in `main`
  (split_hybridlinucb.py:179-180, 208, 229-249) are I/O and randomness. The
  outer loop over problems is one call of `Portfolio.Round` per problem.
- Unused constants (`EPSILON`, `EPSILON_DECAY`, `SPEEDUP_WEIGHT`,
  `SIMILARITY_WEIGHT`, `RESULTS_DIR`, `CSV_HEADER`), the
  `thetas` initialisation, `success`, `ctr` and the sampler import are dead
  code for this model.
- Dispatch.RunLog.AddStrategy: requires a non-empty order. With an empty
  order the source reaches `res.result` with `res` still `None` and
  crashes. In `main`, the order is never empty, since it has one entry per
  solver.
- Window.LastFive.Normalize: requires a non-negative point. z3 probe values
  are counts and sizes, and non-negativity keeps the divisor above zero. For
  a negative column the source could divide by zero or by a negative
  number; this is not modelled.
- Window.LastFive.Normalize: the buffer's points are kept as raw feature
  points. The source appends `point` before rebinding the name to the
  scaled array, so the buffer holds raw points too.
- Learner.LinUcb.Learn: the updates are applied after the whole dispatch,
  once per attempt, with the reward list returned by `add_strategy`. This is
  what the code does (split_hybridlinucb.py:217-227). The usual
  per-observation formulation of hybrid LinUCB, which updates after each
  attempt, would give the same final state, since no update is read by the
  dispatch.
- Ranking.Argsort: the order among equal scores is not modelled. The
  selection sort may order ties differently from `np.argsort`, whose default
  sort promises no particular order for ties either; only a permutation
  with non-decreasing scores is claimed.
- `SOLVERS` names are kept with their invocations, and the log records the
  invocation string, as the source does (`solver = SOLVERS[s]`).
