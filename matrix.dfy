/**
 * src/matrix.c: 4 x 4 matrices of floats, the identity and scale builders,
 * and the product of a matrix with a 4D vector. A matrix is a value (the C
 * functions return mat4_t by value), so it is a sequence of four rows of
 * four reals here.
 */
module Matrix {
  import opened Geometry

  /** mat4_t: `m[i][j]` is the entry in row i, column j. */
  type Mat4 = m: seq<seq<real>> | |m| == 4 && forall i :: 0 <= i < 4 ==> |m[i]| == 4
    witness [[0.0, 0.0, 0.0, 0.0], [0.0, 0.0, 0.0, 0.0], [0.0, 0.0, 0.0, 0.0], [0.0, 0.0, 0.0, 0.0]]

  /** Component j of a vector: x, y, z, w for j = 0, 1, 2, 3. */
  function Comp(v: Vec4, j: int): real
    requires 0 <= j < 4
  {
    if j == 0 then v.x else if j == 1 then v.y else if j == 2 then v.z else v.w
  }

  /** The sum of row[j] * v_j over the first n columns. */
  function RowSum(row: seq<real>, v: Vec4, n: int): real
    requires 0 <= n <= 4 && |row| == 4
  {
    if n == 0 then 0.0 else RowSum(row, v, n - 1) + row[n - 1] * Comp(v, n - 1)
  }

  /** A full row sum is the four products written out. */
  lemma RowSumFour(row: seq<real>, v: Vec4)
    requires |row| == 4
    ensures RowSum(row, v, 4) == row[0] * v.x + row[1] * v.y + row[2] * v.z + row[3] * v.w
  {
    assert RowSum(row, v, 1) == row[0] * v.x;
    assert RowSum(row, v, 2) == row[0] * v.x + row[1] * v.y;
  }

  /** Matrices with the same entries are equal. */
  lemma Mat4Ext(a: Mat4, b: Mat4)
    requires forall i, j :: 0 <= i < 4 && 0 <= j < 4 ==> a[i][j] == b[i][j]
    ensures a == b
  {
    forall i | 0 <= i < 4
      ensures a[i] == b[i]
    {
      assert forall j :: 0 <= j < 4 ==> a[i][j] == b[i][j];
    }
  }

  /** mat4_identity: ones on the diagonal, zeros elsewhere. */
  function Identity(): (m: Mat4)
    ensures forall i, j :: 0 <= i < 4 && 0 <= j < 4 ==> m[i][j] == if i == j then 1.0 else 0.0
  {
    [[1.0, 0.0, 0.0, 0.0],
     [0.0, 1.0, 0.0, 0.0],
     [0.0, 0.0, 1.0, 0.0],
     [0.0, 0.0, 0.0, 1.0]]
  }

  /** The matrix with entry (i, j) replaced by x. */
  function SetEntry(m: Mat4, i: int, j: int, x: real): (r: Mat4)
    requires 0 <= i < 4 && 0 <= j < 4
    ensures forall a, b :: 0 <= a < 4 && 0 <= b < 4 ==> r[a][b] == if a == i && b == j then x else m[a][b]
  {
    m[i := m[i][j := x]]
  }

  /**
   * mat4_make_scale as written: the identity with `m[0][0] = sx` stored
   * three times, so only the x scale reaches the matrix and sy and sz are
   * never used.
   */
  function MakeScale(sx: real, sy: real, sz: real): (m: Mat4)
    ensures forall i, j :: 0 <= i < 4 && 0 <= j < 4 ==>
      m[i][j] == if i == 0 && j == 0 then sx else Identity()[i][j]
  {
    var m := Identity();
    var m := SetEntry(m, 0, 0, sx);
    var m := SetEntry(m, 0, 0, sx);
    SetEntry(m, 0, 0, sx)
  }

  /** The scale matrix the function is evidently meant to build: sx, sy, sz, 1 on the diagonal. */
  function MakeScaleIntended(sx: real, sy: real, sz: real): (m: Mat4)
    ensures forall i, j :: 0 <= i < 4 && 0 <= j < 4 && i != j ==> m[i][j] == 0.0
    ensures m[0][0] == sx && m[1][1] == sy && m[2][2] == sz && m[3][3] == 1.0
  {
    var m := Identity();
    var m := SetEntry(m, 0, 0, sx);
    var m := SetEntry(m, 1, 1, sy);
    SetEntry(m, 2, 2, sz)
  }

  /** mat4_mul_vec: component i of the result is the sum over j of m[i][j] * v_j. */
  function MulVec(m: Mat4, v: Vec4): (r: Vec4)
    ensures forall i :: 0 <= i < 4 ==> Comp(r, i) == RowSum(m[i], v, 4)
  {
    RowSumFour(m[0], v);
    RowSumFour(m[1], v);
    RowSumFour(m[2], v);
    RowSumFour(m[3], v);
    Vec4(m[0][0] * v.x + m[0][1] * v.y + m[0][2] * v.z + m[0][3] * v.w,
         m[1][0] * v.x + m[1][1] * v.y + m[1][2] * v.z + m[1][3] * v.w,
         m[2][0] * v.x + m[2][1] * v.y + m[2][2] * v.z + m[2][3] * v.w,
         m[3][0] * v.x + m[3][1] * v.y + m[3][2] * v.z + m[3][3] * v.w)
  }

  /** The identity leaves every vector unchanged. */
  lemma MulVecIdentity(v: Vec4)
    ensures MulVec(Identity(), v) == v
  {
    var r := MulVec(Identity(), v);
    assert Comp(r, 0) == RowSum(Identity()[0], v, 4);
    assert Comp(r, 1) == RowSum(Identity()[1], v, 4);
    assert Comp(r, 2) == RowSum(Identity()[2], v, 4);
    assert Comp(r, 3) == RowSum(Identity()[3], v, 4);
  }

  /** The matrix that mat4_make_scale builds scales x only. */
  lemma MakeScaleApplied(sx: real, sy: real, sz: real, v: Vec4)
    ensures MulVec(MakeScale(sx, sy, sz), v) == Vec4(sx * v.x, v.y, v.z, v.w)
  {
    var m := MakeScale(sx, sy, sz);
    assert m[0][0] == sx && m[0][1] == 0.0 && m[0][2] == 0.0 && m[0][3] == 0.0;
    assert m[1][0] == 0.0 && m[1][1] == 1.0 && m[1][2] == 0.0 && m[1][3] == 0.0;
    assert m[2][0] == 0.0 && m[2][1] == 0.0 && m[2][2] == 1.0 && m[2][3] == 0.0;
    assert m[3][0] == 0.0 && m[3][1] == 0.0 && m[3][2] == 0.0 && m[3][3] == 1.0;
  }

  /**
   * The discrepancy: with sy = 2 the y coordinate of (0, 1, 0, 1) should
   * become 2, but the built matrix leaves it at 1.
   */
  lemma MakeScaleIgnoresSy()
    ensures MulVec(MakeScale(1.0, 2.0, 1.0), Vec4(0.0, 1.0, 0.0, 1.0)).y == 1.0
    ensures MulVec(MakeScaleIntended(1.0, 2.0, 1.0), Vec4(0.0, 1.0, 0.0, 1.0)).y == 2.0
  {
    MakeScaleApplied(1.0, 2.0, 1.0, Vec4(0.0, 1.0, 0.0, 1.0));
    MakeScaleIntendedApplied(1.0, 2.0, 1.0, Vec4(0.0, 1.0, 0.0, 1.0));
  }

  /** The intended scale matrix scales each coordinate by its own factor and keeps w. */
  lemma MakeScaleIntendedApplied(sx: real, sy: real, sz: real, v: Vec4)
    ensures MulVec(MakeScaleIntended(sx, sy, sz), v) == Vec4(sx * v.x, sy * v.y, sz * v.z, v.w)
  {
    var m := MakeScaleIntended(sx, sy, sz);
    assert m[0][1] == 0.0 && m[0][2] == 0.0 && m[0][3] == 0.0;
    assert m[1][0] == 0.0 && m[1][2] == 0.0 && m[1][3] == 0.0;
    assert m[2][0] == 0.0 && m[2][1] == 0.0 && m[2][3] == 0.0;
    assert m[3][0] == 0.0 && m[3][1] == 0.0 && m[3][2] == 0.0;
  }

  /** Unit factors give the identity, for the intended builder and the one as written. */
  lemma MakeScaleOfOnes()
    ensures MakeScaleIntended(1.0, 1.0, 1.0) == Identity()
    ensures MakeScale(1.0, 1.0, 1.0) == Identity()
  {
    Mat4Ext(MakeScaleIntended(1.0, 1.0, 1.0), Identity());
    Mat4Ext(MakeScale(1.0, 1.0, 1.0), Identity());
  }
}
