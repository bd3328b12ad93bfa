/**
 * The sliding normalisation window: each new feature point is divided,
 * entry by entry, by the largest value seen in that entry over the most
 * recent points (plus a small constant), and at most WINDOW points are kept.
 */
module Window {
  import opened Config

  predicate NonNegative(v: seq<real>) {
    forall j :: 0 <= j < |v| ==> 0.0 <= v[j]
  }

  /** Every row has d entries, none of them negative. */
  predicate Rows(rows: seq<seq<real>>, d: nat) {
    forall i :: 0 <= i < |rows| ==> |rows[i]| == d && NonNegative(rows[i])
  }

  /** The last (at most) n entries of h. */
  function Recent<T>(h: seq<T>, n: nat): (r: seq<T>)
    ensures |r| == if |h| < n then |h| else n
  {
    if |h| <= n then h else h[|h| - n..]
  }

  /** The largest entry j over the rows. */
  function ColumnMax(rows: seq<seq<real>>, j: nat): (m: real)
    requires |rows| > 0 && forall i :: 0 <= i < |rows| ==> j < |rows[i]|
    ensures forall i :: 0 <= i < |rows| ==> rows[i][j] <= m
    ensures exists i :: 0 <= i < |rows| && rows[i][j] == m
  {
    if |rows| == 1 then rows[0][j]
    else
      var rest := ColumnMax(rows[1..], j);
      assert forall i :: 1 <= i < |rows| ==> rows[i] == rows[1..][i - 1];
      if rows[0][j] >= rest then rows[0][j] else rest
  }

  /** The entry-wise divisor: column maximum plus DIVISOR_SLACK. */
  function Divisor(rows: seq<seq<real>>, d: nat): (r: seq<real>)
    requires |rows| > 0 && Rows(rows, d)
    ensures |r| == d && forall j :: 0 <= j < d ==> r[j] >= DIVISOR_SLACK
    ensures forall i, j :: 0 <= i < |rows| && 0 <= j < d ==> rows[i][j] + DIVISOR_SLACK <= r[j]
    ensures forall j :: 0 <= j < d ==> exists i :: 0 <= i < |rows| && r[j] == rows[i][j] + DIVISOR_SLACK
  {
    var div := seq(d, j requires 0 <= j < d => ColumnMax(rows, j) + DIVISOR_SLACK);
    forall j | 0 <= j < d
      ensures exists i :: 0 <= i < |rows| && div[j] == rows[i][j] + DIVISOR_SLACK
    {
      var i :| 0 <= i < |rows| && rows[i][j] == ColumnMax(rows, j);
      assert div[j] == rows[i][j] + DIVISOR_SLACK;
    }
    div
  }

  /** `point` divided entry by entry by `div`. */
  function Divide(point: seq<real>, div: seq<real>): (r: seq<real>)
    requires |point| == |div| && forall j :: 0 <= j < |div| ==> div[j] > 0.0
    ensures |r| == |point| && forall j :: 0 <= j < |point| ==> r[j] * div[j] == point[j]
  {
    var r := seq(|point|, j requires 0 <= j < |point| => point[j] / div[j]);
    forall j | 0 <= j < |point|
      ensures r[j] * div[j] == point[j]
    {
      assert r[j] == point[j] / div[j];
    }
    r
  }

  /**
   * A point normalised against a window that contains it lies in [0, 1) in
   * every entry.
   */
  lemma NormalisedInUnitInterval(rows: seq<seq<real>>, d: nat, k: nat)
    requires |rows| > 0 && Rows(rows, d) && k < |rows|
    ensures var r := Divide(rows[k], Divisor(rows, d));
      forall j :: 0 <= j < d ==> 0.0 <= r[j] < 1.0
  {
    var div := Divisor(rows, d);
    forall j | 0 <= j < d
      ensures 0.0 <= rows[k][j] / div[j] < 1.0
    {
      assert rows[k][j] <= ColumnMax(rows, j) < div[j];
      DivideBelowOne(rows[k][j], div[j]);
    }
  }

  lemma DivideBelowOne(x: real, y: real)
    requires 0.0 <= x < y
    ensures 0.0 <= x / y < 1.0
  {
  }

  /** The recent-points buffer of one run. */
  class LastFive {
    /** Dimension of every feature point. */
    const d: nat
    /** The buffer: the most recent points, oldest first. */
    var lastFive: seq<seq<real>>
    /** Every point seen so far, oldest first. */
    ghost var history: seq<seq<real>>

    ghost predicate Valid()
      reads this
    {
      Rows(history, d) && lastFive == Recent(history, WINDOW)
    }

    constructor (d: nat)
      ensures Valid() && this.d == d && lastFive == [] && history == []
    {
      this.d := d;
      lastFive := [];
      history := [];
    }

    /**
     * Push a new point, divide it by the entry-wise maximum over the buffer
     * (which now holds it and up to WINDOW earlier points) plus DIVISOR_SLACK,
     * then drop the oldest point if the buffer is over capacity.
     */
    method Normalize(point: seq<real>) returns (scaled: seq<real>)
      requires Valid() && |point| == d && NonNegative(point)
      modifies this
      ensures Valid() && history == old(history) + [point]
      ensures |lastFive| <= WINDOW
      ensures scaled == Divide(point, Divisor(Recent(history, WINDOW + 1), d))
    {
      lastFive := lastFive + [point];
      history := history + [point];
      assert lastFive == Recent(history, WINDOW + 1);
      scaled := Divide(point, Divisor(lastFive, d));
      if |lastFive| > WINDOW {
        lastFive := lastFive[1..];
      }
    }
  }
}
