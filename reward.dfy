/** The per-attempt reward, in exact real arithmetic. */
module RewardRule {
  import opened Config

  function Pow4(x: real): (r: real)
    ensures r >= 0.0
  {
    (x * x) * (x * x)
  }

  /**
   * The reward of an attempt charged `elapsed` seconds: (1 - K*elapsed/TIMEOUT)^4,
   * an even power, so never negative whatever the time.
   */
  function Reward(elapsed: real): (r: real)
    ensures r >= 0.0
  {
    Pow4(1.0 - (K as real * elapsed) / TIMEOUT)
  }

  lemma MulMonotone(a: real, b: real, c: real)
    requires a <= b && 0.0 <= c
    ensures a * c <= b * c
  {
    assert b * c - a * c == (b - a) * c;
  }

  lemma Pow4Monotone(x: real, y: real)
    requires 0.0 <= x <= y
    ensures Pow4(x) <= Pow4(y)
  {
    var p, q := x * x, y * y;
    assert p <= q by {
      MulMonotone(x, y, x);
      MulMonotone(x, y, y);
      assert x * y == y * x;
    }
    assert 0.0 <= p;
    assert p * p <= q * q by {
      MulMonotone(p, q, p);
      MulMonotone(p, q, q);
      assert p * q == q * p;
    }
    assert Pow4(x) == p * p && Pow4(y) == q * q;
  }

  /** On [0, BUDGET] the reward lies in [0, 1]. */
  lemma RewardBounds(elapsed: real)
    requires 0.0 <= elapsed <= BUDGET
    ensures 0.0 <= Reward(elapsed) <= 1.0
  {
    var base := 1.0 - (K as real * elapsed) / TIMEOUT;
    assert 0.0 <= base <= 1.0;
    Pow4Monotone(base, 1.0);
  }

  /** On [0, BUDGET] a longer attempt never earns more. */
  lemma RewardAntitone(e1: real, e2: real)
    requires 0.0 <= e1 <= e2 <= BUDGET
    ensures Reward(e2) <= Reward(e1)
  {
    var b1 := 1.0 - (K as real * e1) / TIMEOUT;
    var b2 := 1.0 - (K as real * e2) / TIMEOUT;
    assert 0.0 <= b2 <= b1;
    Pow4Monotone(b2, b1);
  }

  /** An instant answer earns 1, an attempt charged the whole budget earns 0. */
  lemma RewardEndpoints()
    ensures Reward(0.0) == 1.0
    ensures Reward(BUDGET) == 0.0
  {
  }

  /** With four solvers and 60 seconds, an answer after 3 seconds earns 0.8^4. */
  lemma RewardExample()
    ensures Reward(3.0) == 0.4096
  {
  }
}
