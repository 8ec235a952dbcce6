/**
 * The 4 x 4 system of a Kahan step held in place: the array A as a matrix,
 * the shape create_A expects of it, and the identity both drivers start
 * from (Matrix<double, 4, 4>::Identity in the Eigen variant, mat(4, 4,
 * fill::eye) in the Armadillo one).
 */
module KahanSystem {
  import opened HenonHeiles
  import opened Schemes

  /** The 4 x 4 array as a matrix of rows, A[i, j] in row i, column j. */
  function Snapshot(A: array2<real>): (M: Matrix)
    requires A.Length0 == 4 && A.Length1 == 4
    reads A
    ensures Is4x4(M)
  {
    [[A[0, 0], A[0, 1], A[0, 2], A[0, 3]],
     [A[1, 0], A[1, 1], A[1, 2], A[1, 3]],
     [A[2, 0], A[2, 1], A[2, 2], A[2, 3]],
     [A[3, 0], A[3, 1], A[3, 2], A[3, 3]]]
  }

  /** A is a 4 x 4 array that is the identity away from the six entries create_A writes. */
  predicate Handed(A: array2<real>)
    reads A
  {
    A.Length0 == 4 && A.Length1 == 4 && KahanFrame(Snapshot(A))
  }

  /** A fresh 4 x 4 identity array, the A both drivers start from. */
  method NewIdentity() returns (A: array2<real>)
    ensures fresh(A) && A.Length0 == 4 && A.Length1 == 4
    ensures Snapshot(A) == Identity()
  {
    A := new real[4, 4]((i, j) => if i == j then 1.0 else 0.0);
    var M := Snapshot(A);
    assert M[0] == Identity()[0] && M[1] == Identity()[1] && M[2] == Identity()[2] && M[3] == Identity()[3];
  }

  /** A frame matrix holding the six entries of the step from y is that step's matrix. */
  lemma FilledFrame(M: Matrix, y: State, h: real)
    requires Is4x4(M) && KahanFrame(M)
    requires M[0][2] == h * (y.q2 + 0.5) && M[0][3] == h * y.q1
    requires M[1][2] == h * y.q1 && M[1][3] == h * (0.5 - y.q2)
    requires M[2][0] == -0.5 * h && M[3][1] == -0.5 * h
    ensures M == KahanMatrix(y, h)
  {
    var K := KahanMatrix(y, h);
    forall i | 0 <= i < 4
      ensures M[i] == K[i]
    {
      assert M[i][0] == K[i][0] && M[i][1] == K[i][1] && M[i][2] == K[i][2] && M[i][3] == K[i][3];
    }
  }
}
