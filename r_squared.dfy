/** The coefficient of determination R² = 1 − SSE/SST that `score` computes
    from a column of true values and a column of predicted values. */
module RSquared {

  /** The sum of the entries (`np.sum`). */
  function Sum(s: seq<real>): (r: real) {
    if s == [] then 0.0 else s[0] + Sum(s[1..])
  }

  /** The arithmetic mean of a non-empty column (`np.mean`): the one value
      that, repeated in every row, gives the column's total. */
  function Mean(s: seq<real>): (m: real)
    requires |s| > 0
    ensures Sum(Constant(|s|, m)) == Sum(s)
  {
    var m := Sum(s) / (|s| as real);
    SumConstant(|s|, m);
    m
  }

  /** A column of n copies of c. */
  function Constant(n: nat, c: real): (s: seq<real>)
    ensures |s| == n && forall i :: 0 <= i < n ==> s[i] == c
  {
    seq(n, i => c)
  }

  /** x ** 2. */
  function Square(x: real): (r: real) {
    x * x
  }

  lemma SquareOfPositive(x: real)
    requires x > 0.0
    ensures Square(x) > 0.0
  {
    calc {
      Square(x);
      == x * x;
      > 0.0;
    }
  }

  /** A square is never negative, and it is zero only for zero. */
  lemma SquareSign(x: real)
    ensures Square(x) >= 0.0
    ensures Square(x) == 0.0 <==> x == 0.0
  {
    if x > 0.0 {
      SquareOfPositive(x);
    } else if x < 0.0 {
      calc {
        Square(x);
        == (-x) * (-x);
        == Square(-x);
        > { SquareOfPositive(-x); } 0.0;
      }
    }
  }

  /** The sum of the squared entries (`np.sum(d ** 2)`): never negative, and
      zero exactly when every entry is zero. */
  function SumOfSquares(d: seq<real>): (r: real)
    ensures r >= 0.0
    ensures r == 0.0 <==> forall i :: 0 <= i < |d| ==> d[i] == 0.0
  {
    if d == [] then 0.0
    else
      assert (forall i :: 0 <= i < |d| ==> d[i] == 0.0)
         <==> d[0] == 0.0 && forall j :: 0 <= j < |d[1..]| ==> d[1..][j] == 0.0 by {
        assert forall i :: 1 <= i < |d| ==> d[i] == d[1..][i - 1];
      }
      SquareSign(d[0]);
      Square(d[0]) + SumOfSquares(d[1..])
  }

  /** Total sum of squares: squared deviations of the true values from their
      mean. Never negative, and zero exactly when every value is the mean. */
  function SST(t: seq<real>): (r: real)
    requires |t| > 0
    ensures r >= 0.0
    ensures r == 0.0 <==> forall i :: 0 <= i < |t| ==> t[i] == Mean(t)
  {
    var d := seq(|t|, i requires 0 <= i < |t| => t[i] - Mean(t));
    assert (forall i :: 0 <= i < |d| ==> d[i] == 0.0) <==> forall i :: 0 <= i < |t| ==> t[i] == Mean(t) by {
      assert forall i :: 0 <= i < |t| ==> (d[i] == 0.0 <==> t[i] == Mean(t));
    }
    SumOfSquares(d)
  }

  /** Sum of squared errors between the true and the predicted values. Never
      negative, and zero exactly when every prediction is exact. */
  function SSE(t: seq<real>, p: seq<real>): (r: real)
    requires |t| == |p|
    ensures r >= 0.0
    ensures r == 0.0 <==> t == p
  {
    var d := seq(|t|, i requires 0 <= i < |t| => t[i] - p[i]);
    assert (forall i :: 0 <= i < |d| ==> d[i] == 0.0) <==> t == p by {
      if forall i :: 0 <= i < |d| ==> d[i] == 0.0 {
        forall i | 0 <= i < |t| ensures t[i] == p[i] {
          assert d[i] == 0.0;
        }
      }
    }
    SumOfSquares(d)
  }

  /** R² of the predictions p for the true values t, defined when the true
      values are not all equal. It is at most 1, and exactly 1 when and only
      when every prediction is exact. */
  function R2(t: seq<real>, p: seq<real>): (r: real)
    requires |t| == |p| > 0 && SST(t) != 0.0
    ensures r <= 1.0
    ensures r == 1.0 <==> t == p
  {
    var sse, sst := SSE(t, p), SST(t);
    assert sse / sst >= 0.0;
    1.0 - sse / sst
  }

  /** The sum of a column of n copies of c is n·c. */
  lemma {:induction false} SumConstant(n: nat, c: real)
    ensures Sum(Constant(n, c)) == (n as real) * c
  {
    if n > 0 {
      assert Constant(n, c)[1..] == Constant(n - 1, c);
      SumConstant(n - 1, c);
    }
  }

  /** The mean of a constant column is that constant. */
  lemma MeanConstant(n: nat, c: real)
    requires n > 0
    ensures Mean(Constant(n, c)) == c
  {
    SumConstant(n, c);
  }

  /** SST is zero exactly when all true values are equal: the only columns for
      which R² is undefined. */
  lemma SSTZeroIffConstant(t: seq<real>)
    requires |t| > 0
    ensures SST(t) == 0.0 <==> forall i :: 0 <= i < |t| ==> t[i] == t[0]
  {
    var m := Mean(t);
    var d := seq(|t|, i requires 0 <= i < |t| => t[i] - m);
    if forall i :: 0 <= i < |t| ==> t[i] == t[0] {
      assert t == Constant(|t|, t[0]);
      MeanConstant(|t|, t[0]);
      assert forall i :: 0 <= i < |d| ==> d[i] == 0.0;
    }
    if SST(t) == 0.0 {
      assert forall i :: 0 <= i < |t| ==> t[i] == m by {
        forall i | 0 <= i < |t| ensures t[i] == m {
          assert d[i] == 0.0;
        }
      }
    }
  }

  /** Predicting the mean of the true values for every row scores exactly 0. */
  lemma R2OfMeanIsZero(t: seq<real>)
    requires |t| > 0 && SST(t) != 0.0
    ensures R2(t, Constant(|t|, Mean(t))) == 0.0
  {
    var p := Constant(|t|, Mean(t));
    assert seq(|t|, i requires 0 <= i < |t| => t[i] - p[i])
        == seq(|t|, i requires 0 <= i < |t| => t[i] - Mean(t));
  }
}
