/** The small dense linear algebra the modelled code does with numpy:
    3-vectors, 3x3 matrices and 4x4 homogeneous transforms over `real`.
    A 4x4 matrix is kept in block form: its upper-left 3x3 block `R`, its
    upper-right column `t` (the `[:3, 3]` slice), its bottom-left row `p`
    and its bottom-right entry `s`. */
module Linalg {

  datatype V3 = V3(x: real, y: real, z: real)

  /** A 3x3 matrix by rows. */
  datatype M3 = M3(r0: V3, r1: V3, r2: V3)

  /** A 4x4 matrix `[[R, t], [p, s]]`. */
  datatype M4 = M4(R: M3, t: V3, p: V3, s: real)

  const Zero: V3 := V3(0.0, 0.0, 0.0)

  function Add(a: V3, b: V3): (r: V3) {
    V3(a.x + b.x, a.y + b.y, a.z + b.z)
  }

  function Sub(a: V3, b: V3): (r: V3)
    ensures Add(r, b) == a
  {
    V3(a.x - b.x, a.y - b.y, a.z - b.z)
  }

  function Scale(k: real, a: V3): (r: V3) {
    V3(k * a.x, k * a.y, k * a.z)
  }

  function Dot(a: V3, b: V3): (r: real) {
    a.x * b.x + a.y * b.y + a.z * b.z
  }

  /** Columns of a matrix. */
  function Col0(A: M3): (r: V3) { V3(A.r0.x, A.r1.x, A.r2.x) }
  function Col1(A: M3): (r: V3) { V3(A.r0.y, A.r1.y, A.r2.y) }
  function Col2(A: M3): (r: V3) { V3(A.r0.z, A.r1.z, A.r2.z) }

  /** The matrix whose columns are `a`, `b` and `c`. */
  function FromCols(a: V3, b: V3, c: V3): (r: M3)
    ensures Col0(r) == a && Col1(r) == b && Col2(r) == c
  {
    M3(V3(a.x, b.x, c.x), V3(a.y, b.y, c.y), V3(a.z, b.z, c.z))
  }

  function Transpose(A: M3): (r: M3)
    ensures Col0(r) == A.r0 && Col1(r) == A.r1 && Col2(r) == A.r2
  {
    M3(Col0(A), Col1(A), Col2(A))
  }

  function MatVec(A: M3, v: V3): (r: V3) {
    V3(Dot(A.r0, v), Dot(A.r1, v), Dot(A.r2, v))
  }

  /** `v A`, a row vector times a matrix. */
  function VecMat(v: V3, A: M3): (r: V3) {
    V3(Dot(v, Col0(A)), Dot(v, Col1(A)), Dot(v, Col2(A)))
  }

  function MatMul(A: M3, B: M3): (r: M3) {
    M3(VecMat(A.r0, B), VecMat(A.r1, B), VecMat(A.r2, B))
  }

  function MAdd(A: M3, B: M3): (r: M3) {
    M3(Add(A.r0, B.r0), Add(A.r1, B.r1), Add(A.r2, B.r2))
  }

  function MSub(A: M3, B: M3): (r: M3)
    ensures MAdd(r, B) == A
  {
    M3(Sub(A.r0, B.r0), Sub(A.r1, B.r1), Sub(A.r2, B.r2))
  }

  function MScale(k: real, A: M3): (r: M3) {
    M3(Scale(k, A.r0), Scale(k, A.r1), Scale(k, A.r2))
  }

  /** `np.outer(a, b)`. */
  function Outer(a: V3, b: V3): (r: M3) {
    M3(Scale(a.x, b), Scale(a.y, b), Scale(a.z, b))
  }

  const Identity: M3 := M3(V3(1.0, 0.0, 0.0), V3(0.0, 1.0, 0.0), V3(0.0, 0.0, 1.0))

  const ZeroM: M3 := M3(Zero, Zero, Zero)

  predicate Symmetric(A: M3) {
    A.r0.y == A.r1.x && A.r0.z == A.r2.x && A.r1.z == A.r2.y
  }

  /** `np.eye(4)`. */
  const Identity4: M4 := M4(Identity, Zero, Zero, 1.0)

  /** The 4x4 product `A @ B`, block by block. */
  function M4Mul(A: M4, B: M4): (r: M4) {
    M4(MAdd(MatMul(A.R, B.R), Outer(A.t, B.p)),
       Add(MatVec(A.R, B.t), Scale(B.s, A.t)),
       Add(VecMat(A.p, B.R), Scale(A.s, B.p)),
       Dot(A.p, B.t) + A.s * B.s)
  }

  /** `(T @ [c, 1])[:3]`: the point `c` mapped by the transform `T`. */
  function Apply(T: M4, c: V3): (r: V3) {
    Add(MatVec(T.R, c), T.t)
  }

  /** A 4x4 matrix from its 16 entries in row-major order, as
      `np.reshape(data, (4, 4))` builds it. */
  function FromRows(e: seq<real>): (r: M4)
    requires |e| == 16
  {
    M4(M3(V3(e[0], e[1], e[2]), V3(e[4], e[5], e[6]), V3(e[8], e[9], e[10])),
       V3(e[3], e[7], e[11]),
       V3(e[12], e[13], e[14]),
       e[15])
  }

  lemma MatVecIdentity(v: V3)
    ensures MatVec(Identity, v) == v
  {
  }

  lemma MatMulIdentity(A: M3)
    ensures MatMul(Identity, A) == A && MatMul(A, Identity) == A
  {
  }

  /** `(A B)^T = B^T A^T`. */
  lemma TransposeMul(A: M3, B: M3)
    ensures Transpose(MatMul(A, B)) == MatMul(Transpose(B), Transpose(A))
  {
  }

  /** `R S R^T` is symmetric when `S` is. */
  lemma CongruenceSymmetric(R: M3, S: M3)
    requires Symmetric(S)
    ensures Symmetric(MatMul(MatMul(R, S), Transpose(R)))
  {
    var M := MatMul(MatMul(R, S), Transpose(R));
    assert M.r0.y == Form(R.r0, S, R.r1) && M.r1.x == Form(R.r1, S, R.r0);
    assert M.r0.z == Form(R.r0, S, R.r2) && M.r2.x == Form(R.r2, S, R.r0);
    assert M.r1.z == Form(R.r1, S, R.r2) && M.r2.y == Form(R.r2, S, R.r1);
    FormSymmetric(R.r0, S, R.r1);
    FormSymmetric(R.r0, S, R.r2);
    FormSymmetric(R.r1, S, R.r2);
  }

  /** The bilinear form `a S b`. */
  function Form(a: V3, S: M3, b: V3): (r: real) {
    Dot(VecMat(a, S), b)
  }

  /** `a S b = b S a` when `S` is symmetric. */
  lemma FormSymmetric(a: V3, S: M3, b: V3)
    requires Symmetric(S)
    ensures Form(a, S, b) == Form(b, S, a)
  {
  }
}
