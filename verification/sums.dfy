/**
 Finite sums over integer and real sequences and over rectangular matrices.

 Every linear expression the routing formulation builds is a sum of this kind:
 a row or column of an arc matrix, a column of the delivery table, the total
 of a per-car contribution. The lemmas here are the bookkeeping the
 formulation's guarantees are proved with: linearity, bounds, exchanging the
 order of a double sum, and the "cut identity" that turns a sum of
 conservation rows over a vertex set into the flow crossing its boundary.
 */
module Sums {

  /** The sum of the elements of `s`. */
  function Sum(s: seq<int>): int
  {
    if |s| == 0 then 0 else s[0] + Sum(s[1..])
  }

  function Plus(a: seq<int>, b: seq<int>): seq<int>
    requires |a| == |b|
  {
    seq(|a|, i requires 0 <= i < |a| => a[i] + b[i])
  }

  function Minus(a: seq<int>, b: seq<int>): seq<int>
    requires |a| == |b|
  {
    seq(|a|, i requires 0 <= i < |a| => a[i] - b[i])
  }

  function Scale(c: int, a: seq<int>): seq<int>
  {
    seq(|a|, i requires 0 <= i < |a| => c * a[i])
  }

  /** A sequence whose elements are all 0 or 1 (the values of a binary variable). */
  predicate Binary(s: seq<int>)
  {
    forall i :: 0 <= i < |s| ==> s[i] == 0 || s[i] == 1
  }

  predicate NonNegative(s: seq<int>)
  {
    forall i :: 0 <= i < |s| ==> s[i] >= 0
  }

  /** The positions of `s` that hold a 1. */
  function Ones(s: seq<int>): set<int>
  {
    set i | 0 <= i < |s| && s[i] == 1
  }

  /** Exactly one position of `s` holds a 1 and every other holds 0. */
  predicate ExactlyOne(s: seq<int>)
  {
    exists i :: 0 <= i < |s| && OnlyOneAt(s, i)
  }

  /** Position `i` holds a 1 and every other position holds 0. */
  predicate OnlyOneAt(s: seq<int>, i: int)
    requires 0 <= i < |s|
  {
    s[i] == 1 && forall k :: 0 <= k < |s| && k != i ==> s[k] == 0
  }

  predicate AllZero(s: seq<int>)
  {
    forall i :: 0 <= i < |s| ==> s[i] == 0
  }

  lemma {:induction false} SumAppend(a: seq<int>, b: seq<int>)
    ensures Sum(a + b) == Sum(a) + Sum(b)
  {
    if |a| > 0 {
      assert (a + b)[1..] == a[1..] + b;
      SumAppend(a[1..], b);
    } else {
      assert a + b == b;
    }
  }

  /** Peeling the last element off, the way a running total grows. */
  lemma SumSnoc(s: seq<int>, i: int)
    requires 0 <= i < |s|
    ensures Sum(s[..i + 1]) == Sum(s[..i]) + s[i]
  {
    assert s[..i + 1] == s[..i] + [s[i]];
    SumAppend(s[..i], [s[i]]);
  }

  lemma {:induction false} SumPlus(a: seq<int>, b: seq<int>)
    requires |a| == |b|
    ensures Sum(Plus(a, b)) == Sum(a) + Sum(b)
  {
    if |a| > 0 {
      assert Plus(a, b)[1..] == Plus(a[1..], b[1..]);
      SumPlus(a[1..], b[1..]);
    }
  }

  lemma {:induction false} SumMinus(a: seq<int>, b: seq<int>)
    requires |a| == |b|
    ensures Sum(Minus(a, b)) == Sum(a) - Sum(b)
  {
    if |a| > 0 {
      assert Minus(a, b)[1..] == Minus(a[1..], b[1..]);
      SumMinus(a[1..], b[1..]);
    }
  }

  lemma {:induction false} SumScale(c: int, a: seq<int>)
    ensures Sum(Scale(c, a)) == c * Sum(a)
  {
    if |a| > 0 {
      assert Scale(c, a)[1..] == Scale(c, a[1..]);
      SumScale(c, a[1..]);
      assert c * Sum(a) == c * a[0] + c * Sum(a[1..]);
    }
  }

  /** A sum of terms none of which is positive is not positive. */
  lemma {:induction false} SumNonPositive(s: seq<int>)
    requires forall i :: 0 <= i < |s| ==> s[i] <= 0
    ensures Sum(s) <= 0
  {
    if |s| > 0 {
      SumNonPositive(s[1..]);
    }
  }

  lemma {:induction false} SumMono(a: seq<int>, b: seq<int>)
    requires |a| == |b|
    requires forall i :: 0 <= i < |a| ==> a[i] <= b[i]
    ensures Sum(a) <= Sum(b)
  {
    if |a| > 0 {
      SumMono(a[1..], b[1..]);
    }
  }

  /** A sum of non-negative terms is at least each of its terms. */
  lemma {:induction false} SumAtLeastTerm(s: seq<int>, i: int)
    requires NonNegative(s)
    requires 0 <= i < |s|
    ensures Sum(s) >= s[i] >= 0
  {
    if i > 0 {
      SumAtLeastTerm(s[1..], i - 1);
      assert s[0] >= 0;
    } else if |s| > 1 {
      SumAtLeastTerm(s[1..], 0);
    }
  }

  lemma SumNonNegative(s: seq<int>)
    requires NonNegative(s)
    ensures Sum(s) >= 0
  {
    if |s| > 0 {
      SumAtLeastTerm(s, 0);
    }
  }

  /** A zero sum of non-negative terms has every term zero. */
  lemma SumZeroAllZero(s: seq<int>)
    requires NonNegative(s)
    requires Sum(s) == 0
    ensures AllZero(s)
  {
    forall i | 0 <= i < |s|
      ensures s[i] == 0
    {
      SumAtLeastTerm(s, i);
    }
  }

  /** A sum of 0/1 values equal to 1 has exactly one 1. */
  lemma {:induction false} BinarySumOne(s: seq<int>)
    requires Binary(s)
    requires Sum(s) == 1
    ensures ExactlyOne(s)
  {
    assert |s| > 0;
    if s[0] == 1 {
      SumZeroAllZero(s[1..]);
      assert forall k :: 0 < k < |s| ==> s[k] == s[1..][k - 1];
      assert OnlyOneAt(s, 0);
    } else {
      BinarySumOne(s[1..]);
      var i :| 0 <= i < |s[1..]| && OnlyOneAt(s[1..], i);
      assert s[i + 1] == 1;
      forall k | 0 <= k < |s| && k != i + 1
        ensures s[k] == 0
      {
        if k > 0 {
          assert s[k] == s[1..][k - 1];
        }
      }
      assert OnlyOneAt(s, i + 1);
    }
  }

  /** For 0/1 values the sum counts the ones. */
  lemma {:induction false} BinarySumCountsOnes(s: seq<int>)
    requires Binary(s)
    ensures |Ones(s)| == Sum(s)
  {
    if |s| == 0 {
      assert Ones(s) == {};
    } else {
      var n := |s| - 1;
      var t := s[..n];
      BinarySumCountsOnes(t);
      assert s == t + [s[n]];
      SumAppend(t, [s[n]]);
      if s[n] == 1 {
        assert Ones(s) == Ones(t) + {n};
        assert n !in Ones(t);
      } else {
        assert Ones(s) == Ones(t);
      }
    }
  }

  // ---------------------------------------------------------------------------
  // Matrices
  // ---------------------------------------------------------------------------

  /** `m` has `rows` rows of `cols` entries each. */
  predicate IsMatrix(m: seq<seq<int>>, rows: nat, cols: nat)
  {
    |m| == rows && forall j :: 0 <= j < |m| ==> |m[j]| == cols
  }

  /** Column `k` of `m`: the entries `m[j][k]` for every row `j`. */
  function Column(m: seq<seq<int>>, k: nat): seq<int>
    requires forall j :: 0 <= j < |m| ==> k < |m[j]|
  {
    seq(|m|, j requires 0 <= j < |m| => m[j][k])
  }

  function RowSums(m: seq<seq<int>>): seq<int>
  {
    seq(|m|, j requires 0 <= j < |m| => Sum(m[j]))
  }

  function ColumnSums(m: seq<seq<int>>, cols: nat): seq<int>
    requires IsMatrix(m, |m|, cols)
  {
    seq(cols, k requires 0 <= k < cols => Sum(Column(m, k)))
  }

  /** The sum of every entry of `m`, taken row by row. */
  function Total(m: seq<seq<int>>): int
  {
    Sum(RowSums(m))
  }

  lemma {:induction false} SumOfZeros(n: nat)
    ensures Sum(seq(n, k => 0)) == 0
  {
    if n > 0 {
      assert seq(n, k => 0)[1..] == seq(n - 1, k => 0);
      SumOfZeros(n - 1);
    }
  }

  /** Exchanging the order of summation: the row-by-row total equals the
      column-by-column total. */
  lemma {:induction false} Fubini(m: seq<seq<int>>, cols: nat)
    requires IsMatrix(m, |m|, cols)
    ensures Total(m) == Sum(ColumnSums(m, cols))
  {
    if |m| == 0 {
      forall k | 0 <= k < cols
        ensures ColumnSums(m, cols)[k] == 0
      {
        assert Column(m, k) == [];
      }
      assert ColumnSums(m, cols) == seq(cols, k => 0);
      SumOfZeros(cols);
    } else {
      var rest := m[1..];
      assert RowSums(m)[1..] == RowSums(rest);
      Fubini(rest, cols);
      forall k | 0 <= k < cols
        ensures ColumnSums(m, cols)[k] == m[0][k] + ColumnSums(rest, cols)[k]
      {
        assert Column(m, k)[1..] == Column(rest, k);
      }
      assert ColumnSums(m, cols) == Plus(m[0], ColumnSums(rest, cols));
      SumPlus(m[0], ColumnSums(rest, cols));
    }
  }

  lemma {:induction false} TotalNonPositive(m: seq<seq<int>>)
    requires forall j, k :: 0 <= j < |m| && 0 <= k < |m[j]| ==> m[j][k] <= 0
    ensures Total(m) <= 0
  {
    forall j | 0 <= j < |m|
      ensures RowSums(m)[j] <= 0
    {
      SumNonPositive(m[j]);
    }
    SumNonPositive(RowSums(m));
  }

  /** A total of non-negative entries is at least each entry. */
  lemma {:induction false} TotalAtLeastEntry(m: seq<seq<int>>, j: int, k: int)
    requires forall j', k' :: 0 <= j' < |m| && 0 <= k' < |m[j']| ==> m[j'][k'] >= 0
    requires 0 <= j < |m| && 0 <= k < |m[j]|
    ensures Total(m) >= m[j][k]
  {
    forall j' | 0 <= j' < |m|
      ensures RowSums(m)[j'] >= 0
    {
      SumNonNegative(m[j']);
    }
    SumAtLeastTerm(m[j], k);
    SumAtLeastTerm(RowSums(m), j);
  }

  // ---------------------------------------------------------------------------
  // Flow across the boundary of a vertex set
  // ---------------------------------------------------------------------------

  /** 1 for a member of `S`, 0 otherwise. */
  function Ind(S: set<int>, j: int): int
  {
    if j in S then 1 else 0
  }

  /** What arc (k, j) of a flow `m` contributes to the net inflow of `S`:
      its flow when it enters `S`, minus its flow when it leaves, 0 otherwise. */
  function Crossing(m: seq<seq<int>>, S: set<int>): seq<seq<int>>
    requires IsMatrix(m, |m|, |m|)
  {
    seq(|m|, k requires 0 <= k < |m| =>
      seq(|m|, j requires 0 <= j < |m| => m[k][j] * (Ind(S, j) - Ind(S, k))))
  }

  /** The net inflow (inflow minus outflow) of every vertex in `S`, summed. */
  function NetInflowOf(m: seq<seq<int>>, S: set<int>): int
    requires IsMatrix(m, |m|, |m|)
  {
    Sum(seq(|m|, j requires 0 <= j < |m| => Ind(S, j) * (Sum(Column(m, j)) - Sum(m[j]))))
  }

  /** Arc (k, j) weighted by whether its head lies in `S`. */
  function HeadWeighted(m: seq<seq<int>>, S: set<int>): seq<seq<int>>
    requires IsMatrix(m, |m|, |m|)
  {
    seq(|m|, k requires 0 <= k < |m| => seq(|m|, j requires 0 <= j < |m| => m[k][j] * Ind(S, j)))
  }

  /** Arc (k, j) weighted by whether its tail lies in `S`. */
  function TailWeighted(m: seq<seq<int>>, S: set<int>): seq<seq<int>>
    requires IsMatrix(m, |m|, |m|)
  {
    seq(|m|, k requires 0 <= k < |m| => seq(|m|, j requires 0 <= j < |m| => m[k][j] * Ind(S, k)))
  }

  function InflowTerms(m: seq<seq<int>>, S: set<int>): seq<int>
    requires IsMatrix(m, |m|, |m|)
  {
    seq(|m|, j requires 0 <= j < |m| => Ind(S, j) * Sum(Column(m, j)))
  }

  function OutflowTerms(m: seq<seq<int>>, S: set<int>): seq<int>
    requires IsMatrix(m, |m|, |m|)
  {
    seq(|m|, j requires 0 <= j < |m| => Ind(S, j) * Sum(m[j]))
  }

  lemma InflowOfSet(m: seq<seq<int>>, S: set<int>)
    requires IsMatrix(m, |m|, |m|)
    ensures Sum(InflowTerms(m, S)) == Total(HeadWeighted(m, S))
  {
    var n := |m|;
    var h := HeadWeighted(m, S);
    forall j | 0 <= j < n
      ensures InflowTerms(m, S)[j] == ColumnSums(h, n)[j]
    {
      assert Column(h, j) == Scale(Ind(S, j), Column(m, j));
      SumScale(Ind(S, j), Column(m, j));
    }
    assert InflowTerms(m, S) == ColumnSums(h, n);
    Fubini(h, n);
  }

  lemma OutflowOfSet(m: seq<seq<int>>, S: set<int>)
    requires IsMatrix(m, |m|, |m|)
    ensures Sum(OutflowTerms(m, S)) == Total(TailWeighted(m, S))
  {
    var t := TailWeighted(m, S);
    forall k | 0 <= k < |m|
      ensures OutflowTerms(m, S)[k] == RowSums(t)[k]
    {
      assert t[k] == Scale(Ind(S, k), m[k]);
      SumScale(Ind(S, k), m[k]);
    }
    assert OutflowTerms(m, S) == RowSums(t);
  }

  lemma CrossingIsDifference(m: seq<seq<int>>, S: set<int>)
    requires IsMatrix(m, |m|, |m|)
    ensures Total(Crossing(m, S)) == Total(HeadWeighted(m, S)) - Total(TailWeighted(m, S))
  {
    var h := HeadWeighted(m, S);
    var t := TailWeighted(m, S);
    var c := Crossing(m, S);
    forall k | 0 <= k < |m|
      ensures RowSums(c)[k] == RowSums(h)[k] - RowSums(t)[k]
    {
      assert c[k] == Minus(h[k], t[k]);
      SumMinus(h[k], t[k]);
    }
    assert RowSums(c) == Minus(RowSums(h), RowSums(t));
    SumMinus(RowSums(h), RowSums(t));
  }

  /** The cut identity: summing the conservation rows of the vertices of `S`
      cancels every arc inside `S` and leaves the flow entering `S` minus the
      flow leaving it. */
  lemma CutIdentity(m: seq<seq<int>>, S: set<int>)
    requires IsMatrix(m, |m|, |m|)
    ensures NetInflowOf(m, S) == Total(Crossing(m, S))
  {
    InflowOfSet(m, S);
    OutflowOfSet(m, S);
    CrossingIsDifference(m, S);
    assert seq(|m|, j requires 0 <= j < |m| => Ind(S, j) * (Sum(Column(m, j)) - Sum(m[j])))
        == Minus(InflowTerms(m, S), OutflowTerms(m, S));
    SumMinus(InflowTerms(m, S), OutflowTerms(m, S));
  }

  // ---------------------------------------------------------------------------
  // Real-valued sums (the profit expression divides by demand)
  // ---------------------------------------------------------------------------

  function RSum(s: seq<real>): real
  {
    if |s| == 0 then 0.0 else s[0] + RSum(s[1..])
  }

  lemma RSumSnoc(s: seq<real>, i: int)
    requires 0 <= i < |s|
    ensures RSum(s[..i + 1]) == RSum(s[..i]) + s[i]
  {
    RSumAppend(s[..i], [s[i]]);
    assert s[..i + 1] == s[..i] + [s[i]];
  }

  lemma {:induction false} RSumAppend(a: seq<real>, b: seq<real>)
    ensures RSum(a + b) == RSum(a) + RSum(b)
  {
    if |a| > 0 {
      assert (a + b)[1..] == a[1..] + b;
      RSumAppend(a[1..], b);
    } else {
      assert a + b == b;
    }
  }

  lemma {:induction false} RSumMono(a: seq<real>, b: seq<real>)
    requires |a| == |b|
    requires forall i :: 0 <= i < |a| ==> a[i] <= b[i]
    ensures RSum(a) <= RSum(b)
  {
    if |a| > 0 {
      RSumMono(a[1..], b[1..]);
    }
  }

  /** The integers of `a`, each cast to real and multiplied by `c`. */
  function ScaledReals(a: seq<int>, c: real): seq<real>
  {
    seq(|a|, i requires 0 <= i < |a| => a[i] as real * c)
  }

  /** Scaling a sum by a constant factor, with the integer sum cast to real. */
  lemma {:induction false} RSumOfScaledInts(a: seq<int>, c: real)
    ensures RSum(ScaledReals(a, c)) == Sum(a) as real * c
  {
    if |a| > 0 {
      forall i | 0 <= i < |a| - 1
        ensures ScaledReals(a, c)[1..][i] == ScaledReals(a[1..], c)[i]
      {
        assert a[1..][i] == a[i + 1];
      }
      assert ScaledReals(a, c)[1..] == ScaledReals(a[1..], c);
      RSumOfScaledInts(a[1..], c);
    }
  }

  function RRowSums(m: seq<seq<real>>): seq<real>
  {
    seq(|m|, j requires 0 <= j < |m| => RSum(m[j]))
  }

  function RColumnSums(m: seq<seq<real>>, cols: nat): seq<real>
    requires forall j :: 0 <= j < |m| ==> |m[j]| == cols
  {
    seq(cols, k requires 0 <= k < cols => RSum(seq(|m|, j requires 0 <= j < |m| => m[j][k])))
  }

  lemma {:induction false} RSumOfZeros(n: nat)
    ensures RSum(seq(n, k => 0.0)) == 0.0
  {
    if n > 0 {
      assert seq(n, k => 0.0)[1..] == seq(n - 1, k => 0.0);
      RSumOfZeros(n - 1);
    }
  }

  lemma {:induction false} RSumPlus(a: seq<real>, b: seq<real>)
    requires |a| == |b|
    ensures RSum(seq(|a|, i requires 0 <= i < |a| => a[i] + b[i])) == RSum(a) + RSum(b)
  {
    if |a| > 0 {
      assert seq(|a|, i requires 0 <= i < |a| => a[i] + b[i])[1..]
          == seq(|a[1..]|, i requires 0 <= i < |a[1..]| => a[1..][i] + b[1..][i]);
      RSumPlus(a[1..], b[1..]);
    }
  }

  /** Exchanging the order of a real double sum. */
  lemma {:induction false} RFubini(m: seq<seq<real>>, cols: nat)
    requires forall j :: 0 <= j < |m| ==> |m[j]| == cols
    ensures RSum(RRowSums(m)) == RSum(RColumnSums(m, cols))
  {
    if |m| == 0 {
      assert RColumnSums(m, cols) == seq(cols, k => 0.0);
      RSumOfZeros(cols);
    } else {
      var rest := m[1..];
      assert RRowSums(m)[1..] == RRowSums(rest);
      RFubini(rest, cols);
      forall k | 0 <= k < cols
        ensures RColumnSums(m, cols)[k] == m[0][k] + RColumnSums(rest, cols)[k]
      {
        assert seq(|m|, j requires 0 <= j < |m| => m[j][k])[1..]
            == seq(|rest|, j requires 0 <= j < |rest| => rest[j][k]);
      }
      var rc := RColumnSums(rest, cols);
      assert RColumnSums(m, cols) == seq(|m[0]|, i requires 0 <= i < |m[0]| => m[0][i] + rc[i]);
      RSumPlus(m[0], rc);
    }
  }
}
