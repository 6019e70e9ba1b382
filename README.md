# Ordinary-least-squares regressor, modelled in Dafny

This project models `LinearRegressor`, a small ordinary-least-squares
estimator. Its lifecycle is simple: the regressor starts with no coefficients.
`fit` checks the shapes of a feature matrix X and a target vector y, then
stores and returns the closed-form coefficients `inv(XᵀX) @ Xᵀ @ y`. `predict`
checks that the model is fitted and that X has the right shape, then returns
`X @ coef`. `score` reads a true column and a predicted column from a table
and returns the coefficient of determination R² = 1 − SSE/SST.

All arithmetic is over Dafny's `real`, so there is no rounding and no
tolerance.

The modules follow the parts of the program:

- `Outcomes`: the `Option` and `Result` wrappers.
- `LinearAlgebra`: vectors and matrices as sequences, with the dot product, `A @ v`, `A @ B`, the transpose and the identity. It also proves the algebra `fit` relies on: `(A @ B) @ v == A @ (B @ v)` and `I @ v == v`.
- `LeastSquares`: the Gram matrix XᵀX, the fitted coefficient vector and the normal equations. It also proves the promise of the class documentation (src/ols_regressor/regressor.py:9-12): any solution of the normal equations has the smallest residual sum of squares.
- `RSquared`: the mean, SST, SSE and R², with the facts the score promises.
- `Regressor`:
  - the error kinds and their messages;
  - the numpy arguments (`NdArray`) and the table argument (`Frame`). `Frame.Empty` is pandas' `df.empty` (src/ols_regressor/regressor.py:120): the frame has no rows or no columns;
  - the class `LinearRegressor`, whose `coef` field only `Fit` may change: `Predict` has no `modifies` clause and `Score` reads no state.

The exception that each check raises follows the code. Every shape failure and
the not-fitted failure raise `ValueError`. The only `TypeError` is raised for a
`score` argument that is not a DataFrame. No separate "shape" or "not fitted"
exception kind exists in the code.

`np.linalg.inv` is a function parameter `inv` of `Fit`, not part of the model.
It is constrained by `ExactInverse`:

- when it returns a matrix, that matrix is a two-sided inverse;
- it returns nothing (numpy's `LinAlgError("Singular matrix")`) only for a matrix that has no inverse.

## Model

| member | source | states |
|---|---|---|
| Regressor.LinearRegressor.constructor | src/ols_regressor/regressor.py:14-16 | A new regressor has no coefficients. |
| Regressor.LinearRegressor.Fit | src/ols_regressor/regressor.py:9-56 | The checks run in the source's order and the first failing one decides the error: X not 2-D, then y not 1-D, then row counts differ, then strictly fewer rows than columns. So n_examples == n_features is accepted. A singular XᵀX gives `LinAlgError`. Otherwise the result has one entry per feature and solves the normal equations (XᵀX)·w = Xᵀy. No other coefficient vector has a smaller residual sum of squares. It is stored in `coef` and returned. Every failure leaves `coef` as it was. |
| Regressor.LinearRegressor.Predict | src/ols_regressor/regressor.py:72-98 | The checks run in order: not fitted, then X not 2-D, then the column count differs from the number of coefficients. It succeeds exactly when none of them fails. It then returns one prediction per row of X, entry i being the dot product of row i with `coef`. It cannot change `coef`. |
| Regressor.LinearRegressor.Score | src/ols_regressor/regressor.py:117-138 | A non-DataFrame gives `TypeError`. An empty frame, or one with fewer than two rows, gives `ValueError`. A missing true column or predicted column gives `KeyError`, in that order. It succeeds exactly when none of these holds, and then returns R² of the two columns. That value is at most 1, and it is 1 exactly when the columns are equal. |
| Regressor.PredictBeforeFit | src/ols_regressor/regressor.py:14-16 | For every X, predicting with a freshly constructed regressor fails with "Model not fitted. Call fit first.". |
| Regressor.FitThenPredict | src/ols_regressor/regressor.py:55-56 | For noiseless data y = X·w with XᵀX invertible, `fit` returns exactly w. Predicting on the same rows then returns y. |
| Regressor.NdArray.Shape | src/ols_regressor/regressor.py:48-51 | `.shape` of a 1-D array is its length. For a 2-D array it is the number of rows, then the column count, which every row's length equals and which a (0, n) array keeps. |
| Regressor.NdArray.Ndim | src/ols_regressor/regressor.py:42-45 | `ndim` is 1 exactly for 1-D arrays and 2 exactly for 2-D arrays, which is what the rank checks test. |
| LinearAlgebra.MatVec | src/ols_regressor/regressor.py:97 | `X @ coef` has one entry per row of X. Entry i is the dot product of row i with the vector. |
| LinearAlgebra.Transpose | src/ols_regressor/regressor.py:55 | `X.T` has the dimensions swapped, and entry (j, i) equals entry (i, j) of X. |
| LinearAlgebra.MatMul | src/ols_regressor/regressor.py:55 | `A @ B` of an (m, k) and a (k, p) matrix is an (m, p) matrix. |
| LinearAlgebra.MatMulEntry | src/ols_regressor/regressor.py:55 | Entry (i, j) of `A @ B` is the dot product of row i of A with column j of B, which is the textbook definition. |
| LinearAlgebra.MatVecMatMul | src/ols_regressor/regressor.py:55 | `(A @ B) @ v == A @ (B @ v)`, so numpy's left-to-right evaluation of `inv(XᵀX) @ Xᵀ @ y` agrees with applying the factors one at a time. |
| LinearAlgebra.MatVecIdentity | src/ols_regressor/regressor.py:55 | The identity matrix leaves every vector unchanged. |
| LinearAlgebra.DotCombine | src/ols_regressor/regressor.py:55 | (a @ B)·v == a·(B @ v): the sums over rows and over columns of a product can be exchanged. |
| LeastSquares.Gram | src/ols_regressor/regressor.py:55 | XᵀX of a matrix with n columns is n by n. |
| LeastSquares.Coefficients | src/ols_regressor/regressor.py:55 | `inv(XᵀX) @ Xᵀ @ y` has one entry per feature. |
| LeastSquares.CoefficientsSolveNormalEquations | src/ols_regressor/regressor.py:55 | With the exact inverse of XᵀX, the coefficients satisfy (XᵀX)·w = Xᵀy. |
| LeastSquares.NormalEquationsUnique | src/ols_regressor/regressor.py:55 | When XᵀX is invertible, any w that solves the normal equations equals the computed coefficients. |
| LeastSquares.ResidualOrthogonal | src/ols_regressor/regressor.py:55 | For a solution w of the normal equations, Xᵀ·(y − X·w) is the zero vector. |
| LinearAlgebra.TransposeAdjoint | src/ols_regressor/regressor.py:55 | r·(X·d) == (Xᵀ·r)·d for all conforming X, r and d. |
| LeastSquares.NormalEquationsMinimizeRSS | src/ols_regressor/regressor.py:9-12 | If w solves the normal equations, then for every v of the same length the SSE of X·w against y is at most that of X·v. |
| LeastSquares.CoefficientsMinimizeRSS | src/ols_regressor/regressor.py:9-12 | The coefficients `fit` computes minimise the residual sum of squares over all coefficient vectors, as the class documentation promises. |
| LeastSquares.CoefficientsRecoverExactModel | src/ols_regressor/regressor.py:55 | When y = X·w exactly and XᵀX is invertible, the computed coefficients are w. |
| RSquared.Mean | src/ols_regressor/regressor.py:127 | The mean of the true column, repeated in every row, has the same total as the column. |
| RSquared.SST | src/ols_regressor/regressor.py:130 | SST is never negative, and it is zero exactly when every true value equals the mean. |
| RSquared.SSE | src/ols_regressor/regressor.py:133 | SSE is never negative, and it is zero exactly when the predicted column equals the true column. |
| RSquared.SumOfSquares | src/ols_regressor/regressor.py:130-133 | `np.sum(d ** 2)` is never negative, and it is zero exactly when every entry of d is zero. |
| RSquared.R2 | src/ols_regressor/regressor.py:127-136 | 1 − SSE/SST is at most 1, and it equals 1 exactly when every prediction equals its true value. |
| RSquared.R2OfMeanIsZero | src/ols_regressor/regressor.py:127-136 | Predicting the mean of the true column for every row gives R² exactly 0. |
| RSquared.SSTZeroIffConstant | src/ols_regressor/regressor.py:130 | SST is zero exactly when all true values are equal, so those are the only columns for which R² is undefined. |
| RSquared.MeanConstant | src/ols_regressor/regressor.py:127 | The mean of a column of equal values is that value. |

## Left out

- Floating-point arithmetic: everything is over exact reals. Rounding, overflow, and "recovers w up to a tolerance" are not modelled; recovery is exact equality.
- Regressor.LinearRegressor.Predict: does not model the non-numeric, NaN and infinity checks (src/ols_regressor/regressor.py:85-95). A sequence of reals has no such values, so these checks would always pass.
- Regressor.LinearRegressor.Fit: `np.linalg.inv` is a parameter, constrained by `ExactInverse` to be exact. Numpy's routine, its near-singular results and its error message are not modelled. A singular XᵀX is modelled as `LinAlgError("Singular matrix")`.
- Regressor.LinearRegressor.Score: requires SST ≠ 0 whenever R² would be computed. The source divides without a guard and yields an infinite or NaN result (or a warning) for a constant true column; `RSquared.SSTZeroIffConstant` characterises exactly which columns those are.
- Regressor.LinearRegressor.Score: models a table as its row count and its numeric columns by name. Pandas indexing, non-numeric columns and `.values` conversion are not modelled. A missing column is modelled as `KeyError` with the column name.
- Regressor.NdArray: models `np.array(...)` only by its result. A 1-D array keeps its entries, a 2-D array keeps its rows and column count, and any other rank keeps only its shape. Coercion of ragged or non-numeric input and dtypes are not modelled. A 2-D `y` is modelled, and `Fit` rejects it as the code does (src/ols_regressor/regressor.py:44-45). The multi-target shape (n_examples, n_targets) that the docstrings describe (src/ols_regressor/regressor.py:27, 69) is not followed, since the code rejects it.
- Regressor.LinearRegressor.Fit: in the source, the returned vector is the very array stored in `self.coef` (src/ols_regressor/regressor.py:55-56). A caller who writes into it changes the stored coefficients and every later prediction. The model returns an immutable sequence, so writes through the returned vector, and that aliasing, are not modelled.
- Regressor.LinearRegressor.Fit: returns the coefficient vector, as the source does. The docstring's "returns self" is not followed, because the code returns `self.coef`.
- Concurrent use of one regressor is not modelled.
