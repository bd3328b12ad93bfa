/**
 * The hybrid LinUCB statistics and their per-round update. A0 and B0 are
 * the shared model; As[k], Bs[k] and Cs[k] belong to solver k. Matrix
 * inversion is a parameter `inv`: the update's structure does not depend on
 * how it is computed.
 */
module Learner {
  import opened Matrices

  /** The inverse maps d-by-d matrices to d-by-d matrices. */
  ghost predicate InverseKeepsShape(inv: Matrix -> Matrix, d: nat) {
    forall m :: Square(m, d) ==> Square(inv(m), d)
  }

  /** The whole learned state. */
  datatype Model = Model(A0: Matrix, B0: Vector, As: seq<Matrix>, Bs: seq<Vector>, Cs: seq<Matrix>)

  /** Every matrix is d-by-d, every vector has d entries, and there are `arms` per-solver models. */
  predicate WellFormed(m: Model, d: nat, arms: nat) {
    Square(m.A0, d) && |m.B0| == d &&
    |m.As| == arms && |m.Bs| == arms && |m.Cs| == arms &&
    forall k :: 0 <= k < arms ==> Square(m.As[k], d) && |m.Bs[k]| == d && Square(m.Cs[k], d)
  }

  /** Each solver's C is its A minus the identity. */
  ghost predicate Coupled(m: Model, d: nat, arms: nat)
    requires WellFormed(m, d, arms)
  {
    forall k :: 0 <= k < arms ==> m.Cs[k] == Sub(m.As[k], Identity(d))
  }

  /** Each solver's A is symmetric. */
  ghost predicate ArmsSymmetric(m: Model, d: nat, arms: nat)
    requires WellFormed(m, d, arms)
  {
    forall k :: 0 <= k < arms ==> Symmetric(m.As[k])
  }

  /** The invariant the update keeps. */
  ghost predicate Consistent(m: Model, d: nat, arms: nat) {
    WellFormed(m, d, arms) && Coupled(m, d, arms) && ArmsSymmetric(m, d, arms)
  }

  /** The start state: identity A0 and As, zero B0, Bs and Cs. */
  function Initial(d: nat, arms: nat): (m: Model)
    ensures Consistent(m, d, arms)
  {
    var m := Model(Identity(d), ZeroVector(d), seq(arms, _ => Identity(d)),
                   seq(arms, _ => ZeroVector(d)), seq(arms, _ => Zero(d)));
    assert forall k :: 0 <= k < arms ==> m.Cs[k] == Sub(m.As[k], Identity(d)) by {
      var z, s := Zero(d), Sub(Identity(d), Identity(d));
      forall i | 0 <= i < d
        ensures z[i] == s[i]
      {
        assert forall j :: 0 <= j < d ==> z[i][j] == s[i][j];
      }
    }
    m
  }

  /** The correction term C.T @ inv(A) @ C. */
  function Correction(c: Matrix, aInv: Matrix): (r: Matrix)
    requires Square(c, |c|) && Square(aInv, |c|)
    ensures Square(r, |c|)
  {
    MatMul(MatMul(Transpose(c), aInv), c)
  }

  /** The correction term C.T @ inv(A) @ B. */
  function CorrectionVec(c: Matrix, aInv: Matrix, b: Vector): (r: Vector)
    requires Square(c, |c|) && Square(aInv, |c|) && |b| == |c|
    ensures |r| == |c|
  {
    MatVec(MatMul(Transpose(c), aInv), b)
  }

  /**
   * One update for solver k with feature point x and reward `reward`: the
   * shared model first takes solver k's correction computed from its
   * statistics BEFORE the update, solver k then adds x @ x.T to A and C and
   * reward * x to B, and the shared model finally adds x @ x.T and
   * reward * x minus the correction computed from the statistics AFTER it.
   */
  function Step(m: Model, d: nat, arms: nat, k: nat, x: Vector, reward: real, inv: Matrix -> Matrix): (r: Model)
    requires WellFormed(m, d, arms) && k < arms && |x| == d && InverseKeepsShape(inv, d)
    ensures WellFormed(r, d, arms)
  {
    var a0 := Add(m.A0, Correction(m.Cs[k], inv(m.As[k])));
    var b0 := VAdd(m.B0, CorrectionVec(m.Cs[k], inv(m.As[k]), m.Bs[k]));
    var ak := Add(m.As[k], Outer(x));
    var bk := VAdd(m.Bs[k], Scale(reward, x));
    var ck := Add(m.Cs[k], Outer(x));
    Model(
      Add(a0, Sub(Outer(x), Correction(ck, inv(ak)))),
      VAdd(b0, VSub(Scale(reward, x), CorrectionVec(ck, inv(ak), bk))),
      m.As[k := ak], m.Bs[k := bk], m.Cs[k := ck])
  }

  /**
   * Only solver k's statistics change: A and C gain x @ x.T and B gains
   * reward * x; every other solver's statistics are untouched.
   */
  lemma StepChangesOneArm(m: Model, d: nat, arms: nat, k: nat, x: Vector, reward: real, inv: Matrix -> Matrix)
    requires WellFormed(m, d, arms) && k < arms && |x| == d && InverseKeepsShape(inv, d)
    ensures var r := Step(m, d, arms, k, x, reward, inv);
      r.As[k] == Add(m.As[k], Outer(x)) &&
      r.Bs[k] == VAdd(m.Bs[k], Scale(reward, x)) &&
      r.Cs[k] == Add(m.Cs[k], Outer(x)) &&
      forall j :: 0 <= j < arms && j != k ==> r.As[j] == m.As[j] && r.Bs[j] == m.Bs[j] && r.Cs[j] == m.Cs[j]
  {
  }

  /** One update keeps every C equal to its A minus the identity, and every A symmetric. */
  lemma StepConsistent(m: Model, d: nat, arms: nat, k: nat, x: Vector, reward: real, inv: Matrix -> Matrix)
    requires Consistent(m, d, arms) && k < arms && |x| == d && InverseKeepsShape(inv, d)
    ensures Consistent(Step(m, d, arms, k, x, reward, inv), d, arms)
  {
    var r := Step(m, d, arms, k, x, reward, inv);
    AddSubCommute(m.As[k], Outer(x), Identity(d));
    assert r.Cs[k] == Sub(r.As[k], Identity(d));
    OuterSymmetric(x);
    AddSymmetric(m.As[k], Outer(x));
    assert Symmetric(r.As[k]);
  }

  /** The updates of one round are for solvers `choices[i]` with `rewards[i]`. */
  predicate ValidRound(choices: seq<nat>, rewards: seq<real>, arms: nat) {
    |rewards| <= |choices| && forall i :: 0 <= i < |rewards| ==> choices[i] < arms
  }

  /** The state after applying the round's updates in attempt order. */
  function Replay(m: Model, d: nat, arms: nat, choices: seq<nat>, rewards: seq<real>, x: Vector, inv: Matrix -> Matrix): (r: Model)
    requires WellFormed(m, d, arms) && ValidRound(choices, rewards, arms) && |x| == d && InverseKeepsShape(inv, d)
    ensures WellFormed(r, d, arms)
    decreases |rewards|
  {
    if rewards == [] then m
    else
      var n := |rewards| - 1;
      Step(Replay(m, d, arms, choices, rewards[..n], x, inv), d, arms, choices[n], x, rewards[n], inv)
  }

  /** A round's updates keep the invariant. */
  lemma {:induction false} ReplayConsistent(m: Model, d: nat, arms: nat, choices: seq<nat>, rewards: seq<real>, x: Vector, inv: Matrix -> Matrix)
    requires Consistent(m, d, arms) && ValidRound(choices, rewards, arms) && |x| == d && InverseKeepsShape(inv, d)
    ensures Consistent(Replay(m, d, arms, choices, rewards, x, inv), d, arms)
    decreases |rewards|
  {
    if rewards != [] {
      var n := |rewards| - 1;
      ReplayConsistent(m, d, arms, choices, rewards[..n], x, inv);
      StepConsistent(Replay(m, d, arms, choices, rewards[..n], x, inv), d, arms, choices[n], x, rewards[n], inv);
    }
  }

  /** A solver that was not attempted in the round keeps its statistics. */
  lemma {:induction false} ReplayUntriedArms(m: Model, d: nat, arms: nat, choices: seq<nat>, rewards: seq<real>, x: Vector, inv: Matrix -> Matrix, j: nat)
    requires WellFormed(m, d, arms) && ValidRound(choices, rewards, arms) && |x| == d && InverseKeepsShape(inv, d)
    requires j < arms && j !in choices[..|rewards|]
    ensures var r := Replay(m, d, arms, choices, rewards, x, inv);
      r.As[j] == m.As[j] && r.Bs[j] == m.Bs[j] && r.Cs[j] == m.Cs[j]
    decreases |rewards|
  {
    if rewards != [] {
      var n := |rewards| - 1;
      assert choices[..n] == choices[..|rewards|][..n];
      assert choices[n] in choices[..|rewards|];
      ReplayUntriedArms(m, d, arms, choices, rewards[..n], x, inv, j);
      StepChangesOneArm(Replay(m, d, arms, choices, rewards[..n], x, inv), d, arms, choices[n], x, rewards[n], inv);
    }
  }

  /** The learner's state, updated in place once per attempted solver. */
  class LinUcb {
    /** Number of features. */
    const d: nat
    /** Number of solvers. */
    const arms: nat
    var A0: Matrix
    var B0: Vector
    var As: seq<Matrix>
    var Bs: seq<Vector>
    var Cs: seq<Matrix>

    function State(): Model
      reads this
    {
      Model(A0, B0, As, Bs, Cs)
    }

    ghost predicate Valid()
      reads this
    {
      Consistent(State(), d, arms)
    }

    constructor (d: nat, arms: nat)
      ensures Valid() && this.d == d && this.arms == arms && State() == Initial(d, arms)
    {
      this.d, this.arms := d, arms;
      var m := Initial(d, arms);
      A0, B0, As, Bs, Cs := m.A0, m.B0, m.As, m.Bs, m.Cs;
    }

    /**
     * One update for solver `choice` with reward `reward` and point x, in
     * the order of the source's statements.
     */
    method Update(choice: nat, reward: real, x: Vector, inv: Matrix -> Matrix)
      requires Valid() && choice < arms && |x| == d && InverseKeepsShape(inv, d)
      modifies this
      ensures Valid() && State() == Step(old(State()), d, arms, choice, x, reward, inv)
    {
      StepConsistent(State(), d, arms, choice, x, reward, inv);
      A0 := Add(A0, Correction(Cs[choice], inv(As[choice])));
      B0 := VAdd(B0, CorrectionVec(Cs[choice], inv(As[choice]), Bs[choice]));
      As := As[choice := Add(As[choice], Outer(x))];
      Bs := Bs[choice := VAdd(Bs[choice], Scale(reward, x))];
      Cs := Cs[choice := Add(Cs[choice], Outer(x))];
      A0 := Add(A0, Sub(Outer(x), Correction(Cs[choice], inv(As[choice]))));
      B0 := VAdd(B0, VSub(Scale(reward, x), CorrectionVec(Cs[choice], inv(As[choice]), Bs[choice])));
    }

    /**
     * Apply the round's updates: for each attempt i, in attempt order, the
     * update for solver choices[i] with reward rewards[i] and point x.
     */
    method Learn(choices: seq<nat>, rewards: seq<real>, x: Vector, inv: Matrix -> Matrix)
      requires Valid() && ValidRound(choices, rewards, arms) && |x| == d && InverseKeepsShape(inv, d)
      modifies this
      ensures Valid() && State() == Replay(old(State()), d, arms, choices, rewards, x, inv)
    {
      for i := 0 to |rewards|
        invariant Valid() && State() == Replay(old(State()), d, arms, choices, rewards[..i], x, inv)
      {
        Update(choices[i], rewards[i], x, inv);
        assert rewards[..i + 1][..i] == rewards[..i];
      }
      assert rewards[..|rewards|] == rewards;
    }
  }
}
