/** The `LinearRegressor` estimator: an optional coefficient vector that
    `Fit` sets, `Predict` reads and `Score` ignores. */
module Regressor {
  import opened Outcomes
  import opened LinearAlgebra
  import opened LeastSquares
  import opened RSquared

  /** The exception an operation raises, with its message (for `KeyError`, the
      missing column name). */
  datatype Error =
    | ValueError(message: string)
    | TypeError(message: string)
    | KeyError(key: string)
    | LinAlgError(message: string)

  const X_NOT_2D := "X should be a 2D array."
  const Y_NOT_1D := "y should be a 1D array."
  const EXAMPLE_COUNTS_DIFFER := "The number of examples in X and y should be equal."
  const TOO_FEW_EXAMPLES := "The number of examples in X should be greater than the number of features."
  const NOT_FITTED := "Model not fitted. Call fit first."
  const FEATURE_COUNT_DIFFERS := "The number of features in X should be equal to the number of coefficients."
  const NOT_A_DATAFRAME := "Input must be a pandas DataFrame"
  const TOO_FEW_ROWS := "DataFrame must have at least two data points"
  const SINGULAR := "Singular matrix"

  /** An argument once converted by `np.array`: a 1-D array, a 2-D array with
      its column count (so that a (0, n) array still has n columns), or an
      array of any other rank, of which only the shape matters here. */
  datatype NdArray =
    | Array1(elems: Vector)
    | Array2(rows: Matrix, cols: nat)
    | ArrayN(shape: seq<nat>)
  {
    predicate Valid() {
      match this
      case Array1(_) => true
      case Array2(rows, cols) => HasWidth(rows, cols)
      case ArrayN(shape) => |shape| != 1 && |shape| != 2
    }

    /** `.shape`: the length of a 1-D array; the number of rows of a 2-D
        array, then its column count, which is the number of entries in each
        of its rows and stays defined when there are no rows. */
    function Shape(): (s: seq<nat>)
      requires Valid()
      ensures Array1? ==> s == [|elems|]
      ensures Array2? ==> |s| == 2 && s[0] == |rows| && s[1] == cols
      ensures Array2? ==> forall i :: 0 <= i < |rows| ==> |rows[i]| == s[1]
    {
      match this
      case Array1(elems) => [|elems|]
      case Array2(rows, cols) => [|rows|, cols]
      case ArrayN(shape) => shape
    }

    /** `.ndim`: the length of the shape, which tells the three kinds apart. */
    function Ndim(): (d: nat)
      requires Valid()
      ensures d == 1 <==> Array1?
      ensures d == 2 <==> Array2?
    {
      |Shape()|
    }
  }

  /** The first argument of `score`: a DataFrame, given by its number of rows
      and its numeric columns by name, or an object of any other kind. */
  datatype Frame =
    | DataFrame(length: nat, columns: map<string, Vector>)
    | NotAFrame
  {
    /** Every column has one value per row. */
    predicate Valid() {
      DataFrame? ==> forall c :: c in columns ==> |columns[c]| == length
    }

    /** `df.empty`: the frame has no rows or no columns. */
    predicate Empty()
      requires DataFrame?
    {
      length == 0 || |columns| == 0
    }
  }

  /** Models `np.linalg.inv`: it returns an inverse, which is then two-sided,
      exactly when its argument is invertible. */
  ghost predicate ExactInverse(inv: Matrix -> Option<Matrix>) {
    forall M ::
      && (inv(M).Some? ==> IsInverse(M, inv(M).value, |M|))
      && (inv(M).None? ==> !Invertible(M, |M|))
  }

  /** The arguments of `fit` pass all four shape checks. */
  predicate FitShapesAccepted(X: NdArray, y: NdArray) {
    && X.Array2? && y.Array1?
    && |X.rows| == |y.elems|
    && |X.rows| >= X.cols
  }

  /** The arguments of `score` pass all its checks and R² is computed. */
  predicate ScoreComputed(df: Frame, trueColumn: string, predColumn: string) {
    && df.DataFrame? && !df.Empty() && df.length >= 2
    && trueColumn in df.columns && predColumn in df.columns
  }

  class LinearRegressor {
    /** `None` until the first successful `Fit`. */
    var coef: Option<Vector>

    constructor ()
      ensures coef == None
    {
      coef := None;
    }

    /** Checks the shapes of X and y, in this order, and raises for the first
        check that fails; otherwise solves the normal equations with the
        inverse that `inv` returns for XᵀX, stores the coefficients and
        returns them. A failure leaves the stored coefficients as they were. */
    method Fit(X: NdArray, y: NdArray, inv: Matrix -> Option<Matrix>) returns (r: Result<Vector, Error>)
      requires X.Valid() && y.Valid() && ExactInverse(inv)
      modifies this
      ensures X.Ndim() != 2 ==> r == Err(ValueError(X_NOT_2D))
      ensures X.Ndim() == 2 && y.Ndim() != 1 ==> r == Err(ValueError(Y_NOT_1D))
      ensures X.Ndim() == 2 && y.Ndim() == 1 && X.Shape()[0] != y.Shape()[0]
        ==> r == Err(ValueError(EXAMPLE_COUNTS_DIFFER))
      ensures X.Ndim() == 2 && y.Ndim() == 1 && X.Shape()[0] == y.Shape()[0] && X.Shape()[0] < X.Shape()[1]
        ==> r == Err(ValueError(TOO_FEW_EXAMPLES))
      ensures FitShapesAccepted(X, y) && !Invertible(Gram(X.rows, X.cols), X.cols)
        ==> r == Err(LinAlgError(SINGULAR))
      ensures FitShapesAccepted(X, y) && Invertible(Gram(X.rows, X.cols), X.cols)
        ==> && r.Ok? && |r.value| == X.cols
            && SolvesNormalEquations(X.rows, X.cols, y.elems, r.value)
            && MinimizesRSS(X.rows, X.cols, y.elems, r.value)
      ensures r.Ok? ==> coef == Some(r.value)
      ensures r.Err? ==> coef == old(coef)
    {
      if X.Ndim() != 2 {
        return Err(ValueError(X_NOT_2D));
      }
      if y.Ndim() != 1 {
        return Err(ValueError(Y_NOT_1D));
      }
      if X.Shape()[0] != y.Shape()[0] {
        return Err(ValueError(EXAMPLE_COUNTS_DIFFER));
      }
      if X.Shape()[0] < X.Shape()[1] {
        return Err(ValueError(TOO_FEW_EXAMPLES));
      }
      var n := X.cols;
      var G := Gram(X.rows, n);
      match inv(G) {
        case None =>
          r := Err(LinAlgError(SINGULAR));
        case Some(Minv) =>
          var w := Coefficients(X.rows, n, y.elems, Minv);
          CoefficientsSolveNormalEquations(X.rows, n, y.elems, Minv);
          CoefficientsMinimizeRSS(X.rows, n, y.elems, Minv);
          coef := Some(w);
          r := Ok(w);
      }
    }

    /** Checks, in this order, that the model is fitted, that X is 2-D and
        that X has one column per coefficient; then returns `X @ coef`, one
        prediction per row. The stored coefficients are not changed. */
    method Predict(X: NdArray) returns (r: Result<Vector, Error>)
      requires X.Valid()
      ensures coef.None? ==> r == Err(ValueError(NOT_FITTED))
      ensures coef.Some? && X.Ndim() != 2 ==> r == Err(ValueError(X_NOT_2D))
      ensures coef.Some? && X.Ndim() == 2 && X.Shape()[1] != |coef.value|
        ==> r == Err(ValueError(FEATURE_COUNT_DIFFERS))
      ensures r.Ok? <==> coef.Some? && X.Array2? && X.cols == |coef.value|
      ensures r.Ok? ==> |r.value| == |X.rows|
      ensures r.Ok? ==> forall i :: 0 <= i < |X.rows| ==> r.value[i] == Dot(X.rows[i], coef.value)
    {
      if coef.None? {
        return Err(ValueError(NOT_FITTED));
      }
      if X.Ndim() != 2 {
        return Err(ValueError(X_NOT_2D));
      }
      if X.Shape()[1] != |coef.value| {
        return Err(ValueError(FEATURE_COUNT_DIFFERS));
      }
      r := Ok(MatVec(X.rows, coef.value));
    }

    /** R² of the column `predColumn` as predictions of the column
        `trueColumn`. Raises for anything but a DataFrame, then for a frame
        that is empty or has fewer than two rows, then for a missing column.
        The score is at most 1, and exactly 1 when and only when the two
        columns agree. */
    function Score(df: Frame, trueColumn: string, predColumn: string): (r: Result<real, Error>)
      requires df.Valid()
      requires ScoreComputed(df, trueColumn, predColumn) ==> SST(df.columns[trueColumn]) != 0.0
      ensures df.NotAFrame? ==> r == Err(TypeError(NOT_A_DATAFRAME))
      ensures df.DataFrame? && (df.Empty() || df.length < 2) ==> r == Err(ValueError(TOO_FEW_ROWS))
      ensures df.DataFrame? && !df.Empty() && df.length >= 2 && trueColumn !in df.columns
        ==> r == Err(KeyError(trueColumn))
      ensures df.DataFrame? && !df.Empty() && df.length >= 2 && trueColumn in df.columns && predColumn !in df.columns
        ==> r == Err(KeyError(predColumn))
      ensures r.Ok? <==> ScoreComputed(df, trueColumn, predColumn)
      ensures r.Ok? ==> r.value == R2(df.columns[trueColumn], df.columns[predColumn])
      ensures r.Ok? ==> r.value <= 1.0
      ensures r.Ok? ==> (r.value == 1.0 <==> df.columns[trueColumn] == df.columns[predColumn])
    {
      if df.NotAFrame? then Err(TypeError(NOT_A_DATAFRAME))
      else if df.Empty() || df.length < 2 then Err(ValueError(TOO_FEW_ROWS))
      else if trueColumn !in df.columns then Err(KeyError(trueColumn))
      else if predColumn !in df.columns then Err(KeyError(predColumn))
      else Ok(R2(df.columns[trueColumn], df.columns[predColumn]))
    }
  }

  /** A regressor that was never fitted rejects every prediction. */
  method PredictBeforeFit(X: NdArray) returns (r: Result<Vector, Error>)
    requires X.Valid()
    ensures r == Err(ValueError(NOT_FITTED))
  {
    var model := new LinearRegressor();
    r := model.Predict(X);
  }

  /** Fitting noiseless data y = X·w (with XᵀX invertible) recovers w, and
      predicting on the same rows then reproduces y. */
  method FitThenPredict(X: Matrix, n: nat, w: Vector, inv: Matrix -> Option<Matrix>)
      returns (fitted: Result<Vector, Error>, predicted: Result<Vector, Error>)
    requires HasWidth(X, n) && |w| == n && n <= |X|
    requires ExactInverse(inv) && Invertible(Gram(X, n), n)
    ensures fitted == Ok(w)
    ensures predicted == Ok(MatVec(X, w))
  {
    var y := MatVec(X, w);
    var model := new LinearRegressor();
    fitted := model.Fit(Array2(X, n), Array1(y), inv);
    ghost var Minv :| IsInverse(Gram(X, n), Minv, n);
    NormalEquationsUnique(X, n, y, Minv, fitted.value);
    CoefficientsRecoverExactModel(X, n, w, Minv);
    assert model.coef == Some(w);
    predicted := model.Predict(Array2(X, n));
    MatVecUnique(X, w, predicted.value);
  }
}
