/**
 * One iteration of the training loop: normalise the problem's feature
 * point, rank the solvers by their scores, dispatch the problem along that
 * ranking, then update the learner once per attempt, in attempt order.
 */
module Portfolio {
  import opened Config
  import opened Classify
  import opened Dispatch
  import opened Ranking
  import opened Window
  import opened Matrices
  import opened Learner

  /**
   * `probes` is the problem's raw feature point and `scores[k]` solver k's
   * score for it; `run(k)` is what the harness reports for solver k.
   */
  method Round(window: LastFive, learner: LinUcb, log: RunLog, path: string, probes: seq<real>,
               scores: seq<real>, run: nat -> HarnessRun, inv: Matrix -> Matrix)
    returns (point: Vector, choices: seq<nat>, rewards: seq<real>)
    requires window.Valid() && |probes| == window.d && NonNegative(probes)
    requires learner.Valid() && learner.d == window.d && learner.arms == K
    requires |scores| == K && InverseKeepsShape(inv, learner.d)
    modifies window, learner, log
    ensures window.Valid() && window.history == old(window.history) + [probes]
    ensures point == Divide(probes, Divisor(Recent(window.history, WINDOW + 1), window.d))
    ensures IsPermutation(choices, K) && ValidOrder(choices) && Ascending(scores, choices)
    ensures rewards == Rewards(Attempts(path, choices, run))
    ensures log.all == old(log.all) + [RoundEntry(path, point, choices, run)]
    ensures Answered(path, choices, run) ==> log.solved == old(log.solved) + [RoundEntry(path, point, choices, run)]
    ensures !Answered(path, choices, run) ==> log.solved == old(log.solved)
    ensures learner.Valid() && learner.State() == Replay(old(learner.State()), learner.d, K, choices, rewards, point, inv)
    ensures forall j :: 0 <= j < K && j !in choices[..|rewards|] ==>
      learner.As[j] == old(learner.As[j]) && learner.Bs[j] == old(learner.Bs[j]) && learner.Cs[j] == old(learner.Cs[j])
  {
    point := window.Normalize(probes);
    choices := Argsort(scores);
    PermutationExactlyOnce(choices, K);
    rewards := log.AddStrategy(path, point, choices, run);
    ghost var before := learner.State();
    learner.Learn(choices, rewards, point, inv);
    forall j | 0 <= j < K && j !in choices[..|rewards|]
      ensures learner.As[j] == before.As[j] && learner.Bs[j] == before.Bs[j] && learner.Cs[j] == before.Cs[j]
    {
      ReplayUntriedArms(before, learner.d, K, choices, rewards, point, inv, j);
    }
  }
}
