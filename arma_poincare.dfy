/**
 * armadillo/src/problems/poincare.cpp: a counting pass (uword n) sizes the
 * 2 x n result, and a second pass with the same test assigns column n the
 * point interpolated at q1 = 0 for the n-th crossing, both rows at once.
 */
module ArmaPoincare {
  import opened HenonHeiles
  import opened Section

  /**
   * poincare(Y): p_mat = zeros(2, n) gets one column per crossing, in sample order, and
   * column j holds (q2, p2) of the j-th section point.
   */
  method Poincare(Y: seq<State>) returns (pMat: array2<real>)
    ensures fresh(pMat)
    ensures pMat.Length1 == |SectionPoints(Y)| && Holds(pMat, SectionPoints(Y))
  {
    var n := CountCrossings(Y);
    pMat := new real[2, n]((_, _) => 0.0);
    n := 0;
    var i := 1;
    while i < |Y|
      invariant 1 <= i && (i <= |Y| || |Y| == 0)
      invariant pMat.Length0 == 2 && pMat.Length1 == CrossingCount(Y, |Y|)
      invariant n == CrossingCount(Y, if |Y| == 0 then 0 else i)
      invariant Holds(pMat, Points(Y, if |Y| == 0 then 0 else i))
    {
      n := StoreCrossing(Y, i, pMat, n);
      i := i + 1;
    }
  }

  /** The counting pass: n ends as the number of crossings among samples 1 .. |Y| - 1. */
  method CountCrossings(Y: seq<State>) returns (n: int)
    ensures n == CrossingCount(Y, |Y|)
  {
    n := 0;
    var i := 1;
    while i < |Y|
      invariant 1 <= i && (i <= |Y| || |Y| == 0)
      invariant n == CrossingCount(Y, if |Y| == 0 then 0 else i)
    {
      if Y[i].p1 > 0.0 && Y[i].q1 * Y[i - 1].q1 < 0.0 {
        n := n + 1;
      }
      i := i + 1;
    }
  }

  /**
   * One iteration of the filling pass: when sample i is a crossing, column n
   * is assigned the point interpolated there and n advances; otherwise nothing
   * changes. The columns already filled keep their points.
   */
  method StoreCrossing(Y: seq<State>, i: int, pMat: array2<real>, n: int) returns (next: int)
    requires 1 <= i < |Y|
    requires pMat.Length0 == 2 && pMat.Length1 == CrossingCount(Y, |Y|)
    requires n == CrossingCount(Y, i) && Holds(pMat, Points(Y, i))
    modifies pMat
    ensures next == CrossingCount(Y, i + 1) && Holds(pMat, Points(Y, i + 1))
  {
    next := n;
    if Y[i].p1 > 0.0 && Y[i].q1 * Y[i - 1].q1 < 0.0 {
      CrossingWeight(Y[i - 1], Y[i]);
      CountMonotone(Y, i + 1, |Y|);
      ghost var point := Interpolate(Y[i - 1], Y[i]);
      var lam := Y[i - 1].q1 / (Y[i - 1].q1 - Y[i].q1);
      assert lam == Weight(Y[i - 1], Y[i]);
      var column := [lam * Y[i].q2 + (1.0 - lam) * Y[i - 1].q2, lam * Y[i].p2 + (1.0 - lam) * Y[i - 1].p2];
      assert column[0] == point.q2 && column[1] == point.p2;
      pMat[0, n], pMat[1, n] := column[0], column[1];
      assert Points(Y, i + 1) == Points(Y, i) + [point];
      next := n + 1;
    }
  }
}
