/** Vectors and matrices over the reals, as sequences, with the products that
    the estimator's vectorised expressions (`X.T @ X`, `inv(...) @ X.T @ y`,
    `X @ coef`) compute. */
module LinearAlgebra {

  type Vector = seq<real>
  /** A matrix is a sequence of rows. */
  type Matrix = seq<seq<real>>

  /** Every row of `A` has `n` entries. */
  predicate HasWidth(A: Matrix, n: nat) {
    forall i :: 0 <= i < |A| ==> |A[i]| == n
  }

  /** `A` has shape (m, n). */
  predicate IsMatrix(A: Matrix, m: nat, n: nat) {
    |A| == m && HasWidth(A, n)
  }

  /** The sum of the products of corresponding entries. */
  function Dot(u: Vector, v: Vector): (d: real)
    requires |u| == |v|
  {
    if u == [] then 0.0 else u[0] * v[0] + Dot(u[1..], v[1..])
  }

  /** Matrix-vector product `A @ v`: one entry per row, each the row's dot product with `v`. */
  function MatVec(A: Matrix, v: Vector): (w: Vector)
    requires HasWidth(A, |v|)
    ensures |w| == |A|
    ensures forall i :: 0 <= i < |A| ==> w[i] == Dot(A[i], v)
  {
    if A == [] then [] else [Dot(A[0], v)] + MatVec(A[1..], v)
  }

  /** MatVec is the only vector with one entry per row that is the row's dot
      product with v. */
  lemma MatVecUnique(A: Matrix, v: Vector, w: Vector)
    requires HasWidth(A, |v|) && |w| == |A|
    requires forall i :: 0 <= i < |A| ==> w[i] == Dot(A[i], v)
    ensures w == MatVec(A, v)
  {
  }

  function Zeros(n: nat): (z: Vector)
    ensures |z| == n && forall j :: 0 <= j < n ==> z[j] == 0.0
  {
    seq(n, j => 0.0)
  }

  /** c·x, entry by entry. */
  function Scale(c: real, x: Vector): (z: Vector)
    ensures |z| == |x| && forall j :: 0 <= j < |x| ==> z[j] == c * x[j]
  {
    seq(|x|, j requires 0 <= j < |x| => c * x[j])
  }

  /** x + y, entry by entry. */
  function Add(x: Vector, y: Vector): (z: Vector)
    requires |x| == |y|
    ensures |z| == |x| && forall j :: 0 <= j < |x| ==> z[j] == x[j] + y[j]
  {
    seq(|x|, j requires 0 <= j < |x| => x[j] + y[j])
  }

  /** x − y, entry by entry. */
  function Sub(x: Vector, y: Vector): (z: Vector)
    requires |x| == |y|
    ensures |z| == |x| && forall j :: 0 <= j < |x| ==> z[j] == x[j] - y[j]
  {
    seq(|x|, j requires 0 <= j < |x| => x[j] - y[j])
  }

  /** a[0]·B[0] + a[1]·B[1] + …: the combination of the rows of B (each of
      width p) weighted by a, which is the vector-matrix product `a @ B`. */
  function Combine(a: Vector, B: Matrix, p: nat): (r: Vector)
    requires |a| == |B| && HasWidth(B, p)
    ensures |r| == p
  {
    if B == [] then Zeros(p) else Add(Scale(a[0], B[0]), Combine(a[1..], B[1..], p))
  }

  /** The transpose of a matrix whose rows have `n` entries; `n` is given so that
      a matrix with no rows still has a column count. */
  function Transpose(A: Matrix, n: nat): (T: Matrix)
    requires HasWidth(A, n)
    ensures IsMatrix(T, n, |A|)
    ensures forall j, i :: 0 <= j < n && 0 <= i < |A| ==> T[j][i] == A[i][j]
  {
    seq(n, j requires 0 <= j < n => seq(|A|, i requires 0 <= i < |A| => A[i][j]))
  }

  /** The matrix product `A @ B` of A (|A| x |B|) and B (|B| x p): row i of the
      product is A[i] @ B, the combination of the rows of B weighted by A[i]. */
  function MatMul(A: Matrix, B: Matrix, p: nat): (C: Matrix)
    requires HasWidth(A, |B|) && HasWidth(B, p)
    ensures IsMatrix(C, |A|, p)
  {
    seq(|A|, i requires 0 <= i < |A| => Combine(A[i], B, p))
  }

  /** The i-th unit vector of length n. */
  function Unit(n: nat, i: nat): (u: Vector) {
    seq(n, j requires 0 <= j < n => if j == i then 1.0 else 0.0)
  }

  function Identity(n: nat): (I: Matrix)
    ensures IsMatrix(I, n, n)
  {
    seq(n, i requires 0 <= i < n => Unit(n, i))
  }

  /** N is the two-sided inverse of the square matrix M of order n. */
  predicate IsInverse(M: Matrix, N: Matrix, n: nat) {
    && IsMatrix(M, n, n) && IsMatrix(N, n, n)
    && MatMul(M, N, n) == Identity(n)
    && MatMul(N, M, n) == Identity(n)
  }

  lemma {:induction false} DotZeros(v: Vector)
    ensures Dot(Zeros(|v|), v) == 0.0
  {
    if v != [] {
      assert Zeros(|v|)[1..] == Zeros(|v| - 1);
      DotZeros(v[1..]);
    }
  }

  /** Dot is linear in its first argument: scaling. */
  lemma {:induction false} DotScale(c: real, x: Vector, v: Vector)
    requires |x| == |v|
    ensures Dot(Scale(c, x), v) == c * Dot(x, v)
  {
    if x != [] {
      var z, z' := Scale(c, x), Scale(c, x[1..]);
      assert z[1..] == z' by {
        forall k | 0 <= k < |z'| ensures z[1..][k] == z'[k] {
          assert z[1..][k] == z[k + 1];
        }
      }
      DotScale(c, x[1..], v[1..]);
      assert z[0] * v[0] == c * (x[0] * v[0]);
    }
  }

  /** Dot is linear in its first argument: addition. */
  lemma {:induction false} DotAdd(x: Vector, y: Vector, v: Vector)
    requires |x| == |y| == |v|
    ensures Dot(Add(x, y), v) == Dot(x, v) + Dot(y, v)
  {
    if x != [] {
      var z := Add(x, y);
      assert z[1..] == Add(x[1..], y[1..]);
      DotAdd(x[1..], y[1..], v[1..]);
      assert z[0] * v[0] == x[0] * v[0] + y[0] * v[0];
    }
  }

  /** (a @ B)·v == a·(B @ v): the sums over rows and over columns may be exchanged. */
  lemma {:induction false} DotCombine(a: Vector, B: Matrix, p: nat, v: Vector)
    requires |a| == |B| && HasWidth(B, p) && |v| == p
    ensures Dot(Combine(a, B, p), v) == Dot(a, MatVec(B, v))
  {
    if B == [] {
      DotZeros(v);
    } else {
      var rest := Combine(a[1..], B[1..], p);
      DotAdd(Scale(a[0], B[0]), rest, v);
      DotScale(a[0], B[0], v);
      DotCombine(a[1..], B[1..], p, v);
      assert MatVec(B, v)[1..] == MatVec(B[1..], v);
    }
  }

  /** Matrix products associate with a vector: (A @ B) @ v == A @ (B @ v). */
  lemma MatVecMatMul(A: Matrix, B: Matrix, p: nat, v: Vector)
    requires HasWidth(A, |B|) && HasWidth(B, p) && |v| == p
    ensures MatVec(MatMul(A, B, p), v) == MatVec(A, MatVec(B, v))
  {
    var lhs, rhs := MatVec(MatMul(A, B, p), v), MatVec(A, MatVec(B, v));
    forall i | 0 <= i < |A| ensures lhs[i] == rhs[i] {
      DotCombine(A[i], B, p, v);
    }
  }

  /** The dot product with a unit vector picks out one entry. */
  lemma {:induction false} DotUnit(i: nat, z: Vector)
    requires i < |z|
    ensures Dot(Unit(|z|, i), z) == z[i]
  {
    var u := Unit(|z|, i);
    if i == 0 {
      assert u[1..] == Zeros(|z| - 1);
      DotZeros(z[1..]);
    } else {
      assert u[1..] == Unit(|z| - 1, i - 1);
      DotUnit(i - 1, z[1..]);
    }
  }

  /** Multiplying by the identity changes nothing. */
  lemma MatVecIdentity(z: Vector)
    ensures MatVec(Identity(|z|), z) == z
  {
    var w := MatVec(Identity(|z|), z);
    forall i | 0 <= i < |z| ensures w[i] == z[i] {
      DotUnit(i, z);
    }
  }

  /** Entry (i, j) of A @ B is the dot product of row i of A with column j of B. */
  lemma MatMulEntry(A: Matrix, B: Matrix, p: nat, i: nat, j: nat)
    requires HasWidth(A, |B|) && HasWidth(B, p) && i < |A| && j < p
    ensures MatMul(A, B, p)[i][j] == Dot(A[i], Transpose(B, p)[j])
  {
    var u, r := Unit(p, j), Combine(A[i], B, p);
    var col := MatVec(B, u);
    forall k | 0 <= k < |B| ensures col[k] == Transpose(B, p)[j][k] {
      DotUnit(j, B[k]);
      DotSymmetric(u, B[k]);
    }
    assert col == Transpose(B, p)[j];
    DotCombine(A[i], B, p, u);
    DotUnit(j, r);
    DotSymmetric(u, r);
  }

  lemma {:induction false} DotSymmetric(u: Vector, v: Vector)
    requires |u| == |v|
    ensures Dot(u, v) == Dot(v, u)
  {
    if u != [] {
      DotSymmetric(u[1..], v[1..]);
    }
  }

  /** Dot is linear in its second argument: subtraction. */
  lemma {:induction false} DotSub(u: Vector, a: Vector, b: Vector)
    requires |u| == |a| == |b|
    ensures Dot(u, Sub(a, b)) == Dot(u, a) - Dot(u, b)
  {
    if u != [] {
      var z := Sub(a, b);
      assert z[1..] == Sub(a[1..], b[1..]);
      DotSub(u[1..], a[1..], b[1..]);
      assert u[0] * z[0] == u[0] * a[0] - u[0] * b[0];
    }
  }

  /** (r + e)·(r + e) == r·r + 2·(r·e) + e·e. */
  lemma DotAddSelf(r: Vector, e: Vector)
    requires |r| == |e|
    ensures Dot(Add(r, e), Add(r, e)) == Dot(r, r) + 2.0 * Dot(r, e) + Dot(e, e)
  {
    var s := Add(r, e);
    DotAdd(r, e, s);
    DotSymmetric(r, s);
    DotSymmetric(e, s);
    DotAdd(r, e, r);
    DotAdd(r, e, e);
    DotSymmetric(e, r);
  }

  /** r·(X @ d) == (Xᵀ @ r)·d: the transpose is the adjoint of X. */
  lemma TransposeAdjoint(X: Matrix, n: nat, r: Vector, d: Vector)
    requires HasWidth(X, n) && |r| == |X| && |d| == n
    ensures Dot(r, MatVec(X, d)) == Dot(MatVec(Transpose(X, n), r), d)
  {
    var Xt, c := Transpose(X, n), Combine(r, X, n);
    forall j | 0 <= j < n ensures c[j] == MatVec(Xt, r)[j] {
      MatMulEntry([r], X, n, 0, j);
      assert MatMul([r], X, n)[0] == c;
      DotSymmetric(r, Xt[j]);
    }
    assert c == MatVec(Xt, r);
    DotCombine(r, X, n, d);
  }
}
