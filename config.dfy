/** The run's fixed configuration: the solver portfolio and the time budget. */
module Config {
  /** Total wall-clock budget for one problem, in seconds. */
  const TIMEOUT: real := 60.0

  /** The portfolio in registry order: solver name and command-line invocation. */
  const SOLVERS: seq<(string, string)> := [
    ("Z3", "z3 -T:18"),
    ("CVC4", "cvc4 --tlimit=18000"),
    ("BOOLECTOR", "./tools/boolector-3.2.1/build/bin/boolector -t 18"),
    ("YICES", "./tools/yices-2.6.2/bin/yices-smt2 --timeout=18")
  ]

  /** Portfolio size, the K of the reward formula. */
  const K: nat := |SOLVERS|

  /** Each attempt's share of the budget, TIMEOUT / K (15 seconds here). */
  const BUDGET: real := TIMEOUT / K as real

  /** Capacity of the sliding normalisation window. */
  const WINDOW: nat := 5

  /** Added to the window maximum so that the divisor is never zero. */
  const DIVISOR_SLACK: real := 0.0000000001

  /** Four solvers share the minute, 15 seconds each. */
  lemma BudgetSplit()
    ensures K == 4 && BUDGET == 15.0 && K as real * BUDGET == TIMEOUT
  {
  }
}
