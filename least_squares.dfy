/** The closed-form ordinary-least-squares solution that `fit` computes,
    `inv(X.T @ X) @ X.T @ y`, and the normal equations it solves. */
module LeastSquares {
  import opened LinearAlgebra
  import opened RSquared

  /** The Gram matrix `X.T @ X` of a matrix X with n columns. */
  function Gram(X: Matrix, n: nat): (G: Matrix)
    requires HasWidth(X, n)
    ensures IsMatrix(G, n, n)
  {
    MatMul(Transpose(X, n), X, n)
  }

  /** w has the smallest residual sum of squares ‖y − X·w‖² among all
      coefficient vectors: the ordinary-least-squares criterion. */
  ghost predicate MinimizesRSS(X: Matrix, n: nat, y: Vector, w: Vector)
    requires HasWidth(X, n) && |y| == |X| && |w| == n
  {
    forall v :: |v| == n ==> SSE(y, MatVec(X, w)) <= SSE(y, MatVec(X, v))
  }

  /** M has a two-sided inverse. */
  ghost predicate Invertible(M: Matrix, n: nat) {
    exists N :: IsInverse(M, N, n)
  }

  /** `Minv @ X.T @ y`, evaluated left to right as numpy does: first the
      n x |X| matrix `Minv @ X.T`, then its product with y. With Minv the
      inverse of the Gram matrix this is the fitted coefficient vector. */
  function Coefficients(X: Matrix, n: nat, y: Vector, Minv: Matrix): (w: Vector)
    requires HasWidth(X, n) && |y| == |X| && IsMatrix(Minv, n, n)
    ensures |w| == n
  {
    MatVec(MatMul(Minv, Transpose(X, n), |X|), y)
  }

  /** w satisfies the normal equations (XᵀX)·w = Xᵀ·y. */
  predicate SolvesNormalEquations(X: Matrix, n: nat, y: Vector, w: Vector)
    requires HasWidth(X, n) && |y| == |X| && |w| == n
  {
    MatVec(Gram(X, n), w) == MatVec(Transpose(X, n), y)
  }

  /** The fitted coefficients solve the normal equations. */
  lemma CoefficientsSolveNormalEquations(X: Matrix, n: nat, y: Vector, Minv: Matrix)
    requires HasWidth(X, n) && |y| == |X| && IsInverse(Gram(X, n), Minv, n)
    ensures SolvesNormalEquations(X, n, y, Coefficients(X, n, y, Minv))
  {
    var G, Xt := Gram(X, n), Transpose(X, n);
    var b := MatVec(Xt, y);
    calc {
      MatVec(G, Coefficients(X, n, y, Minv));
      == { MatVecMatMul(Minv, Xt, |X|, y); }
      MatVec(G, MatVec(Minv, b));
      == { MatVecMatMul(G, Minv, n, b); }
      MatVec(MatMul(G, Minv, n), b);
      == MatVec(Identity(n), b);
      == { MatVecIdentity(b); }
      b;
    }
  }

  /** When XᵀX is invertible the normal equations have no other solution:
      any w that solves them is the fitted coefficient vector. */
  lemma NormalEquationsUnique(X: Matrix, n: nat, y: Vector, Minv: Matrix, w: Vector)
    requires HasWidth(X, n) && |y| == |X| && IsInverse(Gram(X, n), Minv, n)
    requires |w| == n && SolvesNormalEquations(X, n, y, w)
    ensures w == Coefficients(X, n, y, Minv)
  {
    var G, Xt := Gram(X, n), Transpose(X, n);
    calc {
      w;
      == { MatVecIdentity(w); }
      MatVec(Identity(n), w);
      == MatVec(MatMul(Minv, G, n), w);
      == { MatVecMatMul(Minv, G, n, w); }
      MatVec(Minv, MatVec(G, w));
      == MatVec(Minv, MatVec(Xt, y));
      == { MatVecMatMul(Minv, Xt, |X|, y); }
      Coefficients(X, n, y, Minv);
    }
  }

  /** Noiseless data: when y = X·w exactly and XᵀX is invertible, fitting
      recovers w itself. */
  lemma CoefficientsRecoverExactModel(X: Matrix, n: nat, w: Vector, Minv: Matrix)
    requires HasWidth(X, n) && |w| == n && IsInverse(Gram(X, n), Minv, n)
    ensures Coefficients(X, n, MatVec(X, w), Minv) == w
  {
    MatVecMatMul(Transpose(X, n), X, n, w);
    assert SolvesNormalEquations(X, n, MatVec(X, w), w);
    NormalEquationsUnique(X, n, MatVec(X, w), Minv, w);
  }

  /** np.sum(d ** 2) is d·d. */
  lemma {:induction false} SumOfSquaresIsDot(d: Vector)
    ensures SumOfSquares(d) == Dot(d, d)
  {
    if d != [] {
      SumOfSquaresIsDot(d[1..]);
    }
  }

  /** The SSE of predictions p is ‖t − p‖². */
  lemma SSEIsDot(t: Vector, p: Vector)
    requires |t| == |p|
    ensures SSE(t, p) == Dot(Sub(t, p), Sub(t, p))
  {
    assert seq(|t|, i requires 0 <= i < |t| => t[i] - p[i]) == Sub(t, p);
    SumOfSquaresIsDot(Sub(t, p));
  }

  /** For a solution w of the normal equations the residual y − X·w is
      orthogonal to every column of X. */
  lemma ResidualOrthogonal(X: Matrix, n: nat, y: Vector, w: Vector)
    requires HasWidth(X, n) && |y| == |X| && |w| == n
    requires SolvesNormalEquations(X, n, y, w)
    ensures MatVec(Transpose(X, n), Sub(y, MatVec(X, w))) == Zeros(n)
  {
    var Xt, Xw := Transpose(X, n), MatVec(X, w);
    var g := MatVec(Xt, Sub(y, Xw));
    MatVecMatMul(Xt, X, n, w);
    forall j | 0 <= j < n ensures g[j] == 0.0 {
      DotSub(Xt[j], y, Xw);
    }
  }

  /** y − X·v splits into the residual of w plus X·(w − v). */
  lemma ResidualSplit(X: Matrix, n: nat, y: Vector, w: Vector, v: Vector)
    requires HasWidth(X, n) && |y| == |X| && |w| == n && |v| == n
    ensures Sub(y, MatVec(X, v)) == Add(Sub(y, MatVec(X, w)), MatVec(X, Sub(w, v)))
  {
    forall i | 0 <= i < |X|
      ensures Sub(y, MatVec(X, v))[i] == Add(Sub(y, MatVec(X, w)), MatVec(X, Sub(w, v)))[i]
    {
      DotSub(X[i], w, v);
    }
  }

  /** Any solution of the normal equations has a residual sum of squares no
      larger than that of any other coefficient vector. */
  lemma NormalEquationsMinimizeRSS(X: Matrix, n: nat, y: Vector, w: Vector, v: Vector)
    requires HasWidth(X, n) && |y| == |X| && |w| == n && |v| == n
    requires SolvesNormalEquations(X, n, y, w)
    ensures SSE(y, MatVec(X, w)) <= SSE(y, MatVec(X, v))
  {
    var r, d := Sub(y, MatVec(X, w)), Sub(w, v);
    var e := MatVec(X, d);
    ResidualSplit(X, n, y, w, v);
    SSEIsDot(y, MatVec(X, w));
    SSEIsDot(y, MatVec(X, v));
    DotAddSelf(r, e);
    TransposeAdjoint(X, n, r, d);
    ResidualOrthogonal(X, n, y, w);
    DotZeros(d);
    SumOfSquaresIsDot(e);
  }

  /** The fitted coefficients are an ordinary-least-squares solution. */
  lemma CoefficientsMinimizeRSS(X: Matrix, n: nat, y: Vector, Minv: Matrix)
    requires HasWidth(X, n) && |y| == |X| && IsInverse(Gram(X, n), Minv, n)
    ensures MinimizesRSS(X, n, y, Coefficients(X, n, y, Minv))
  {
    var w := Coefficients(X, n, y, Minv);
    CoefficientsSolveNormalEquations(X, n, y, Minv);
    forall v | |v| == n ensures SSE(y, MatVec(X, w)) <= SSE(y, MatVec(X, v)) {
      NormalEquationsMinimizeRSS(X, n, y, w, v);
    }
  }
}
