/**
 * One problem's dispatch: try solvers in the ranked order until one gives a
 * definitive answer, collect a reward per attempt, and log the round.
 */
module Dispatch {
  import opened Config
  import opened Classify
  import opened RewardRule

  /** A logged round: problem path, its feature point, the last invocation tried, total time, last verdict. */
  datatype SolvedProblem = SolvedProblem(
    problem: string, datapoint: seq<real>, solveMethod: string, time: real, result: Verdict)

  /** Every entry of the order names a solver of the portfolio. */
  predicate ValidOrder(order: seq<nat>) {
    forall i :: 0 <= i < |order| ==> order[i] < K
  }

  /**
   * The attempts a dispatch makes, in order: the solvers of `order` are run
   * one after the other, up to and including the first definitive answer.
   * `run(s)` is what the harness reports for solver s on this problem.
   */
  function Attempts(path: string, order: seq<nat>, run: nat -> HarnessRun): (a: seq<Attempt>)
    ensures |a| <= |order| && (|order| > 0 ==> |a| > 0)
    decreases |order|
  {
    if order == [] then []
    else
      var a := RunProblem(path, run(order[0]));
      if a.verdict.Solved() then [a] else [a] + Attempts(path, order[1..], run)
  }

  /** Sum of the charged times. */
  function TotalElapsed(attempts: seq<Attempt>): real {
    if attempts == [] then 0.0 else attempts[0].elapsed + TotalElapsed(attempts[1..])
  }

  /** When every charge lies in [0, BUDGET], the round's total lies in [0, |attempts| · BUDGET]. */
  lemma {:induction false} TotalElapsedBounds(attempts: seq<Attempt>)
    requires forall k :: 0 <= k < |attempts| ==> 0.0 <= attempts[k].elapsed <= BUDGET
    ensures 0.0 <= TotalElapsed(attempts) <= |attempts| as real * BUDGET
    decreases |attempts|
  {
    BudgetSplit();
    if attempts != [] {
      TotalElapsedBounds(attempts[1..]);
    }
  }

  /** The reward of each attempt, in attempt order. */
  function Rewards(attempts: seq<Attempt>): (r: seq<real>)
    ensures |r| == |attempts|
  {
    if attempts == [] then [] else [Reward(attempts[0].elapsed)] + Rewards(attempts[1..])
  }

  /** The k-th reward is the reward of the k-th attempt. */
  lemma {:induction false} RewardsAt(attempts: seq<Attempt>, k: nat)
    requires k < |attempts|
    ensures Rewards(attempts)[k] == Reward(attempts[k].elapsed)
    decreases |attempts|
  {
    if k > 0 {
      RewardsAt(attempts[1..], k - 1);
    }
  }

  /**
   * The shape of a dispatch: the k-th attempt runs the k-th solver of the
   * order; there is at least one attempt and at most one per solver; every
   * attempt before the last is undecided; stopping early means the last one
   * answered, so an unanswered round tries the whole order.
   */
  lemma {:induction false} AttemptsShape(path: string, order: seq<nat>, run: nat -> HarnessRun)
    ensures var a := Attempts(path, order, run);
      |a| <= |order| && (|order| > 0 ==> |a| > 0) &&
      (forall k :: 0 <= k < |a| ==> a[k] == RunProblem(path, run(order[k]))) &&
      (forall k :: 0 <= k < |a| - 1 ==> !a[k].verdict.Solved()) &&
      (|a| < |order| ==> a[|a| - 1].verdict.Solved())
    decreases |order|
  {
    if order != [] {
      AttemptsShape(path, order[1..], run);
    }
  }

  /** A round answers exactly when some solver of the order would answer. */
  lemma {:induction false} AnsweredIffSomeSolverAnswers(path: string, order: seq<nat>, run: nat -> HarnessRun)
    requires |order| > 0
    ensures var a := Attempts(path, order, run);
      a[|a| - 1].verdict.Solved() <==>
      exists k :: 0 <= k < |order| && RunProblem(path, run(order[k])).verdict.Solved()
  {
    AttemptsShape(path, order, run);
    var a := Attempts(path, order, run);
    if a[|a| - 1].verdict.Solved() {
      assert RunProblem(path, run(order[|a| - 1])).verdict.Solved();
    }
  }

  /**
   * Every attempt that is neither sat nor unsat earns reward 0, the last one
   * of an unanswered round included; so does every attempt before the last.
   */
  lemma UndecidedEarnNothing(path: string, order: seq<nat>, run: nat -> HarnessRun)
    ensures var a := Attempts(path, order, run);
      forall k :: 0 <= k < |a| && !a[k].verdict.Solved() ==> Rewards(a)[k] == 0.0
    ensures var a := Attempts(path, order, run);
      forall k :: 0 <= k < |a| - 1 ==> Rewards(a)[k] == 0.0
  {
    AttemptsShape(path, order, run);
    var a := Attempts(path, order, run);
    forall k | 0 <= k < |a| && !a[k].verdict.Solved()
      ensures Rewards(a)[k] == 0.0
    {
      assert a[k] == RunProblem(path, run(order[k]));
      RewardsAt(a, k);
      RewardEndpoints();
    }
  }

  /** When the measured times stay within the budget, every reward lies in [0, 1]. */
  lemma RewardsInUnitInterval(path: string, order: seq<nat>, run: nat -> HarnessRun)
    requires forall i :: run(i).Finished? ==> 0.0 <= run(i).elapsed <= BUDGET
    ensures var a := Attempts(path, order, run);
      forall k :: 0 <= k < |a| ==> 0.0 <= Rewards(a)[k] <= 1.0
  {
    AttemptsShape(path, order, run);
    var a := Attempts(path, order, run);
    forall k | 0 <= k < |a|
      ensures 0.0 <= Rewards(a)[k] <= 1.0
    {
      ChargedWithinBudget(path, run(order[k]));
      RewardBounds(a[k].elapsed);
      RewardsAt(a, k);
    }
  }

  lemma {:induction false} TotalOfUndecided(attempts: seq<Attempt>)
    requires forall k :: 0 <= k < |attempts| ==> !attempts[k].verdict.Solved()
    requires forall k :: 0 <= k < |attempts| ==> attempts[k].elapsed == BUDGET
    ensures TotalElapsed(attempts) == |attempts| as real * BUDGET
    decreases |attempts|
  {
    BudgetSplit();
    if attempts != [] {
      TotalOfUndecided(attempts[1..]);
    }
  }

  /**
   * When every solver times out, the round tries the whole order and is
   * charged the whole budget once per solver.
   */
  lemma AllTimeOut(path: string, order: seq<nat>, run: nat -> HarnessRun)
    requires forall i :: run(i) == TimedOut
    ensures var a := Attempts(path, order, run);
      |a| == |order| && TotalElapsed(a) == |order| as real * BUDGET
  {
    BudgetSplit();
    var a := Attempts(path, order, run);
    TimedOutAttempts(path, order, run);
    TotalOfUndecided(a);
  }

  /** When every solver times out, every attempt is a timeout charged the whole budget. */
  lemma TimedOutAttempts(path: string, order: seq<nat>, run: nat -> HarnessRun)
    requires forall i :: run(i) == TimedOut
    ensures var a := Attempts(path, order, run);
      |a| == |order| && forall k :: 0 <= k < |a| ==> a[k].verdict == Timeout && a[k].elapsed == BUDGET
  {
    AttemptsShape(path, order, run);
    var a := Attempts(path, order, run);
    forall k | 0 <= k < |a|
      ensures a[k].verdict == Timeout && a[k].elapsed == BUDGET
    {
      assert a[k] == RunProblem(path, run(order[k])) && run(order[k]) == TimedOut;
    }
  }

  /** When the first solver answers, the round is a single attempt. */
  lemma FirstAnswerStops(path: string, order: seq<nat>, run: nat -> HarnessRun)
    requires |order| > 0 && RunProblem(path, run(order[0])).verdict.Solved()
    ensures Attempts(path, order, run) == [RunProblem(path, run(order[0]))]
  {
  }

  /**
   * What the dispatch loop holds after some attempts: rewards so far, time
   * so far, the last solver tried and its verdict.
   */
  datatype Progress = Progress(rewards: seq<real>, elapsed: real, solver: nat, verdict: Verdict)

  /** The loop's state once it has gone on through `rest` from `p`, stopping at the first answer. */
  function Continue(path: string, rest: seq<nat>, run: nat -> HarnessRun, p: Progress): Progress
    decreases |rest|
  {
    if rest == [] then p
    else
      var a := RunProblem(path, run(rest[0]));
      var q := Progress(p.rewards + [Reward(a.elapsed)], p.elapsed + a.elapsed, rest[0], a.verdict);
      if a.verdict.Solved() then q else Continue(path, rest[1..], run, q)
  }

  /** Prepending an attempt prepends its reward and adds its time. */
  lemma PrependAttempt(a: Attempt, tail: seq<Attempt>)
    ensures Rewards([a] + tail) == [Reward(a.elapsed)] + Rewards(tail)
    ensures TotalElapsed([a] + tail) == a.elapsed + TotalElapsed(tail)
  {
    assert ([a] + tail)[1..] == tail;
  }

  /** The loop stops at the first solver when it answers or is the only one. */
  lemma ContinueStops(path: string, rest: seq<nat>, run: nat -> HarnessRun, p: Progress)
    requires |rest| > 0
    requires RunProblem(path, run(rest[0])).verdict.Solved() || |rest| == 1
    ensures var a := Attempts(path, rest, run);
      Continue(path, rest, run, p) ==
        Progress(p.rewards + Rewards(a), p.elapsed + TotalElapsed(a), rest[|a| - 1], a[|a| - 1].verdict)
  {
    var a := RunProblem(path, run(rest[0]));
    if !a.verdict.Solved() {
      assert rest[1..] == [];
    }
    assert Attempts(path, rest, run) == [a];
    PrependAttempt(a, []);
  }

  /**
   * The loop's final state is determined by the attempts: it has appended
   * their rewards, added their total time, and stopped at the last one.
   */
  lemma {:induction false} ContinueMatchesAttempts(path: string, rest: seq<nat>, run: nat -> HarnessRun, p: Progress)
    requires |rest| > 0
    ensures var a := Attempts(path, rest, run);
      Continue(path, rest, run, p) ==
        Progress(p.rewards + Rewards(a), p.elapsed + TotalElapsed(a), rest[|a| - 1], a[|a| - 1].verdict)
    decreases |rest|
  {
    var a := RunProblem(path, run(rest[0]));
    if a.verdict.Solved() || |rest| == 1 {
      ContinueStops(path, rest, run, p);
    } else {
      var q := Progress(p.rewards + [Reward(a.elapsed)], p.elapsed + a.elapsed, rest[0], a.verdict);
      ContinueMatchesAttempts(path, rest[1..], run, q);
      ContinueGoesOn(path, rest, run, p);
    }
  }

  /** The loop goes on past an undecided first solver: one attempt, then the rest of the order. */
  lemma ContinueGoesOn(path: string, rest: seq<nat>, run: nat -> HarnessRun, p: Progress)
    requires |rest| > 1
    requires !RunProblem(path, run(rest[0])).verdict.Solved()
    requires var a := RunProblem(path, run(rest[0]));
      var q := Progress(p.rewards + [Reward(a.elapsed)], p.elapsed + a.elapsed, rest[0], a.verdict);
      var tail := Attempts(path, rest[1..], run);
      Continue(path, rest[1..], run, q) ==
        Progress(q.rewards + Rewards(tail), q.elapsed + TotalElapsed(tail), rest[1..][|tail| - 1], tail[|tail| - 1].verdict)
    ensures var a := Attempts(path, rest, run);
      Continue(path, rest, run, p) ==
        Progress(p.rewards + Rewards(a), p.elapsed + TotalElapsed(a), rest[|a| - 1], a[|a| - 1].verdict)
  {
    var a := RunProblem(path, run(rest[0]));
    var tail := Attempts(path, rest[1..], run);
    assert Attempts(path, rest, run) == [a] + tail;
    PrependAttempt(a, tail);
    assert p.rewards + [Reward(a.elapsed)] + Rewards(tail) == p.rewards + Rewards([a] + tail);
  }

  /** The dispatch along `order` ends with a definitive answer. */
  predicate Answered(path: string, order: seq<nat>, run: nat -> HarnessRun)
    requires |order| > 0
  {
    var a := Attempts(path, order, run);
    a[|a| - 1].verdict.Solved()
  }

  /**
   * The log entry a dispatch along `order` writes: the invocation of the
   * last solver tried, the total charged time and the last verdict.
   */
  function RoundEntry(path: string, datapoint: seq<real>, order: seq<nat>, run: nat -> HarnessRun): (e: SolvedProblem)
    requires |order| > 0 && ValidOrder(order)
    ensures e.problem == path && e.datapoint == datapoint
    ensures exists k :: (0 <= k < |order| &&
      e.solveMethod == SOLVERS[order[k]].1 && e.result == RunProblem(path, run(order[k])).verdict)
    ensures e.result.Solved() <==> exists k :: 0 <= k < |order| && RunProblem(path, run(order[k])).verdict.Solved()
  {
    var a := Attempts(path, order, run);
    var k := |a| - 1;
    LastAttempt(path, order, run);
    var e := SolvedProblem(path, datapoint, SOLVERS[order[k]].1, TotalElapsed(a), a[k].verdict);
    assert e.solveMethod == SOLVERS[order[k]].1 && e.result == RunProblem(path, run(order[k])).verdict;
    e
  }

  /** The last attempt of a dispatch runs a solver of the order, and answers exactly when some solver would. */
  lemma LastAttempt(path: string, order: seq<nat>, run: nat -> HarnessRun)
    requires |order| > 0
    ensures var a := Attempts(path, order, run);
      0 < |a| <= |order| && a[|a| - 1] == RunProblem(path, run(order[|a| - 1])) &&
      (a[|a| - 1].verdict.Solved() <==> exists k :: 0 <= k < |order| && RunProblem(path, run(order[k])).verdict.Solved())
  {
    AttemptsShape(path, order, run);
    AnsweredIffSomeSolverAnswers(path, order, run);
  }

  /** The state the dispatch loop starts from. */
  const Start := Progress([], 0.0, 0, Error)

  /** What the final loop state says about the round. */
  lemma RoundFacts(path: string, datapoint: seq<real>, order: seq<nat>, run: nat -> HarnessRun, p: Progress)
    requires |order| > 0 && ValidOrder(order) && Continue(path, order, run, Start) == p
    ensures p.rewards == Rewards(Attempts(path, order, run)) && p.solver < K
    ensures RoundEntry(path, datapoint, order, run) == SolvedProblem(path, datapoint, SOLVERS[p.solver].1, p.elapsed, p.verdict)
    ensures Answered(path, order, run) == p.verdict.Solved()
  {
    ContinueMatchesAttempts(path, order, run, Start);
    assert [] + Rewards(Attempts(path, order, run)) == Rewards(Attempts(path, order, run));
  }

  /** The run logs: every round in `all`, the answered ones also in `solved`. */
  class RunLog {
    var solved: seq<SolvedProblem>
    var all: seq<SolvedProblem>

    constructor ()
      ensures solved == [] && all == []
    {
      solved, all := [], [];
    }

    /**
     * Dispatch one problem along `order`, append its entry to `all`, and to
     * `solved` if the last attempt answered; return the per-attempt rewards.
     */
    method AddStrategy(path: string, datapoint: seq<real>, order: seq<nat>, run: nat -> HarnessRun)
      returns (rewards: seq<real>)
      requires |order| > 0 && ValidOrder(order)
      modifies this
      ensures rewards == Rewards(Attempts(path, order, run))
      ensures all == old(all) + [RoundEntry(path, datapoint, order, run)]
      ensures Answered(path, order, run) ==> solved == old(solved) + [RoundEntry(path, datapoint, order, run)]
      ensures !Answered(path, order, run) ==> solved == old(solved)
    {
      var elapsed := 0.0;
      var solver: nat, verdict: Verdict := 0, Error;
      rewards := [];
      var i := 0;
      while i < |order|
        invariant 0 <= i <= |order|
        invariant Continue(path, order, run, Start) ==
                  Continue(path, order[i..], run, Progress(rewards, elapsed, solver, verdict))
        invariant !verdict.Solved() && solved == old(solved) && all == old(all)
      {
        solver := order[i];
        var res := RunProblem(path, run(solver));
        elapsed := elapsed + res.elapsed;
        rewards := rewards + [Reward(res.elapsed)];
        verdict := res.verdict;
        assert order[i..][0] == order[i] && order[i..][1..] == order[i + 1..];
        if verdict.Solved() {
          RoundFacts(path, datapoint, order, run, Progress(rewards, elapsed, solver, verdict));
          solved := solved + [SolvedProblem(path, datapoint, SOLVERS[solver].1, elapsed, verdict)];
          break;
        }
        i := i + 1;
      }
      assert i == |order| ==> order[i..] == [];
      RoundFacts(path, datapoint, order, run, Progress(rewards, elapsed, solver, verdict));
      all := all + [SolvedProblem(path, datapoint, SOLVERS[solver].1, elapsed, verdict)];
    }
  }
}
