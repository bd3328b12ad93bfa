/**
 * Square real matrices and vectors as sequences, with the operations the
 * model update uses. Every matrix of the model is d-by-d and every vector
 * has d entries, d being the number of features.
 */
module Matrices {

  /** A matrix as its rows; a column vector as its entries. */
  type Matrix = seq<seq<real>>
  type Vector = seq<real>

  /** `m` is d-by-d. */
  predicate Square(m: Matrix, d: nat) {
    |m| == d && forall i :: 0 <= i < d ==> |m[i]| == d
  }

  predicate Symmetric(m: Matrix)
    requires Square(m, |m|)
  {
    forall i, j :: 0 <= i < |m| && 0 <= j < |m| ==> m[i][j] == m[j][i]
  }

  function Identity(d: nat): (r: Matrix)
    ensures Square(r, d)
    ensures forall i, j :: 0 <= i < d && 0 <= j < d ==> r[i][j] == if i == j then 1.0 else 0.0
  {
    seq(d, i requires 0 <= i < d => seq(d, j requires 0 <= j < d => if i == j then 1.0 else 0.0))
  }

  function Zero(d: nat): (r: Matrix)
    ensures Square(r, d)
    ensures forall i, j :: 0 <= i < d && 0 <= j < d ==> r[i][j] == 0.0
  {
    seq(d, i requires 0 <= i < d => seq(d, j requires 0 <= j < d => 0.0))
  }

  function ZeroVector(d: nat): (r: Vector)
    ensures |r| == d && forall i :: 0 <= i < d ==> r[i] == 0.0
  {
    seq(d, i requires 0 <= i < d => 0.0)
  }

  function Add(a: Matrix, b: Matrix): (r: Matrix)
    requires Square(a, |a|) && Square(b, |a|)
    ensures Square(r, |a|)
    ensures forall i, j :: 0 <= i < |a| && 0 <= j < |a| ==> r[i][j] == a[i][j] + b[i][j]
  {
    seq(|a|, i requires 0 <= i < |a| => seq(|a|, j requires 0 <= j < |a| => a[i][j] + b[i][j]))
  }

  function Sub(a: Matrix, b: Matrix): (r: Matrix)
    requires Square(a, |a|) && Square(b, |a|)
    ensures Square(r, |a|)
    ensures forall i, j :: 0 <= i < |a| && 0 <= j < |a| ==> r[i][j] == a[i][j] - b[i][j]
  {
    seq(|a|, i requires 0 <= i < |a| => seq(|a|, j requires 0 <= j < |a| => a[i][j] - b[i][j]))
  }

  function Transpose(a: Matrix): (r: Matrix)
    requires Square(a, |a|)
    ensures Square(r, |a|)
    ensures forall i, j :: 0 <= i < |a| && 0 <= j < |a| ==> r[i][j] == a[j][i]
  {
    seq(|a|, i requires 0 <= i < |a| => seq(|a|, j requires 0 <= j < |a| => a[j][i]))
  }

  /** Inner product of two vectors of the same length. */
  function Dot(u: Vector, v: Vector): real
    requires |u| == |v|
  {
    if u == [] then 0.0 else u[0] * v[0] + Dot(u[1..], v[1..])
  }

  /** Column j of a. */
  function Column(a: Matrix, j: nat): (r: Vector)
    requires Square(a, |a|) && j < |a|
    ensures |r| == |a| && forall i :: 0 <= i < |a| ==> r[i] == a[i][j]
  {
    seq(|a|, i requires 0 <= i < |a| => a[i][j])
  }

  /** The matrix product a @ b. */
  function MatMul(a: Matrix, b: Matrix): (r: Matrix)
    requires Square(a, |a|) && Square(b, |a|)
    ensures Square(r, |a|)
    ensures forall i, j :: 0 <= i < |a| && 0 <= j < |a| ==> r[i][j] == Dot(a[i], Column(b, j))
  {
    seq(|a|, i requires 0 <= i < |a| => seq(|a|, j requires 0 <= j < |a| => Dot(a[i], Column(b, j))))
  }

  /** The matrix-vector product a @ v. */
  function MatVec(a: Matrix, v: Vector): (r: Vector)
    requires Square(a, |a|) && |v| == |a|
    ensures |r| == |a| && forall i :: 0 <= i < |a| ==> r[i] == Dot(a[i], v)
  {
    seq(|a|, i requires 0 <= i < |a| => Dot(a[i], v))
  }

  /** The outer product x @ x.T of a column vector with itself. */
  function Outer(x: Vector): (r: Matrix)
    ensures Square(r, |x|)
    ensures forall i, j :: 0 <= i < |x| && 0 <= j < |x| ==> r[i][j] == x[i] * x[j]
  {
    seq(|x|, i requires 0 <= i < |x| => seq(|x|, j requires 0 <= j < |x| => x[i] * x[j]))
  }

  function VAdd(u: Vector, v: Vector): (r: Vector)
    requires |u| == |v|
    ensures |r| == |u| && forall i :: 0 <= i < |u| ==> r[i] == u[i] + v[i]
  {
    seq(|u|, i requires 0 <= i < |u| => u[i] + v[i])
  }

  function VSub(u: Vector, v: Vector): (r: Vector)
    requires |u| == |v|
    ensures |r| == |u| && forall i :: 0 <= i < |u| ==> r[i] == u[i] - v[i]
  {
    seq(|u|, i requires 0 <= i < |u| => u[i] - v[i])
  }

  function Scale(c: real, v: Vector): (r: Vector)
    ensures |r| == |v| && forall i :: 0 <= i < |v| ==> r[i] == c * v[i]
  {
    seq(|v|, i requires 0 <= i < |v| => c * v[i])
  }

  /** An outer product of a vector with itself is symmetric. */
  lemma OuterSymmetric(x: Vector)
    ensures Symmetric(Outer(x))
  {
  }

  /** Adding the same matrix before or after subtracting another gives the same result. */
  lemma AddSubCommute(a: Matrix, p: Matrix, q: Matrix)
    requires Square(a, |a|) && Square(p, |a|) && Square(q, |a|)
    ensures Sub(Add(a, p), q) == Add(Sub(a, q), p)
  {
    var l, r := Sub(Add(a, p), q), Add(Sub(a, q), p);
    forall i | 0 <= i < |a|
      ensures l[i] == r[i]
    {
      assert forall j :: 0 <= j < |a| ==> l[i][j] == r[i][j];
    }
  }

  /** The sum of two symmetric matrices is symmetric. */
  lemma AddSymmetric(a: Matrix, b: Matrix)
    requires Square(a, |a|) && Square(b, |a|) && Symmetric(a) && Symmetric(b)
    ensures Symmetric(Add(a, b))
  {
  }
}
