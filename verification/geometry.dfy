/**
 The distance matrix of `Model::get_distance`: for every ordered pair of
 vertices, the Euclidean distance between their integer coordinates, rounded
 to an integer.

 The source computes `lround(pow(dx*dx + dy*dy, 0.5))` in floating point. The
 model keeps the integer part exact (the squared distance) and takes the
 rounding of its square root as a parameter `R`, of which only `R(0) == 0` is
 assumed. `RoundSqrt` is one such `R`, given exactly in integer arithmetic.
 */
module Geometry {

  function Square(d: int): nat
  {
    d * d
  }

  /** The squared Euclidean distance between vertices `i` and `j`. */
  function SquaredDistance(x: seq<int>, y: seq<int>, i: int, j: int): nat
    requires |x| == |y|
    requires 0 <= i < |x| && 0 <= j < |x|
  {
    Square(x[i] - x[j]) + Square(y[i] - y[j])
  }

  /** The (N+1) x (N+1) distance table, vertex 0 being the depot. Its entries
      are the rounded distances, and the table is symmetric with a zero
      diagonal whatever coordinates it is given. */
  function DistanceMatrix(x: seq<int>, y: seq<int>, R: nat -> int): (d: seq<seq<int>>)
    requires |x| == |y|
    requires R(0) == 0
    ensures |d| == |x|
    ensures forall i :: 0 <= i < |d| ==> |d[i]| == |x|
    ensures forall i, j :: 0 <= i < |x| && 0 <= j < |x| ==> d[i][j] == R(SquaredDistance(x, y, i, j))
    ensures forall i :: 0 <= i < |x| ==> d[i][i] == 0
    ensures forall i, j :: 0 <= i < |x| && 0 <= j < |x| ==> d[i][j] == d[j][i]
  {
    var n := |x|;
    var d := seq(n, i requires 0 <= i < n => seq(n, j requires 0 <= j < n => R(SquaredDistance(x, y, i, j))));
    assert forall i, j :: 0 <= i < n && 0 <= j < n ==> SquaredDistance(x, y, i, j) == SquaredDistance(x, y, j, i);
    d
  }

  /** The integer nearest to the square root of `n`: `k` lies within one half
      of `sqrt(n)`, stated without square roots as
      `(2k - 1)^2 < 4n < (2k + 1)^2` (the lower bound dropped for `k == 0`).
      No integer `n` has a square root exactly halfway between two integers,
      so the rounding direction for ties never arises. */
  predicate IsRoundedRoot(n: nat, k: int)
  {
    k >= 0 && 4 * n < (2 * k + 1) * (2 * k + 1) && (k == 0 || (2 * k - 1) * (2 * k - 1) < 4 * n)
  }

  /** The rounded square root, found by stepping `k` up from `from` while
      `k + 1/2` is still below `sqrt(n)`. */
  function RoundSqrtFrom(n: nat, from: nat): (k: nat)
    requires from == 0 || (2 * from - 1) * (2 * from - 1) < 4 * n
    ensures IsRoundedRoot(n, k)
    decreases 4 * n - from
  {
    var odd := (2 * from + 1) * (2 * from + 1);
    assert odd == 4 * (from * from + from) + 1;
    if odd < 4 * n then
      assert from < 4 * n by {
        assert 2 * from + 1 <= odd;
      }
      RoundSqrtFrom(n, from + 1)
    else
      from
  }

  /** `lround(sqrt(n))` in exact arithmetic. */
  function RoundSqrt(n: nat): (k: nat)
    ensures IsRoundedRoot(n, k)
  {
    RoundSqrtFrom(n, 0)
  }

  /** The rounded root is unique, so `RoundSqrt` is the only function meeting
      its contract; and it maps 0 to 0, as the distance table needs. */
  lemma RoundedRootUnique(n: nat, k: nat, k': nat)
    requires IsRoundedRoot(n, k) && IsRoundedRoot(n, k')
    ensures k == k'
  {
    if k < k' {
      MonotoneOddSquare(k, k' - 1);
    } else if k' < k {
      MonotoneOddSquare(k', k - 1);
    }
  }

  lemma MonotoneOddSquare(a: nat, b: nat)
    requires a <= b
    ensures (2 * a + 1) * (2 * a + 1) <= (2 * b + 1) * (2 * b + 1)
  {
    var p := 2 * a + 1;
    var q := 2 * b + 1;
    assert q * q - p * p == (q - p) * (q + p);
  }

  /** The table `get_distance` builds: every entry the rounded root of the
      squared distance, symmetric, zero on the diagonal. */
  function GetDistance(x: seq<int>, y: seq<int>): (d: seq<seq<int>>)
    requires |x| == |y|
    ensures |d| == |x|
    ensures forall i :: 0 <= i < |d| ==> |d[i]| == |x|
    ensures forall i, j :: 0 <= i < |x| && 0 <= j < |x| ==> d[i][j] >= 0 && d[i][j] == d[j][i]
    ensures forall i, j :: 0 <= i < |x| && 0 <= j < |x| ==> IsRoundedRoot(SquaredDistance(x, y, i, j), d[i][j])
    ensures forall i :: 0 <= i < |x| ==> d[i][i] == 0
  {
    assert RoundSqrt(0) == 0 by {
      RoundedRootUnique(0, RoundSqrt(0), 0);
    }
    DistanceMatrix(x, y, (n: nat) => RoundSqrt(n))
  }
}
