/**
 * The Poincaré section of a sampled orbit as the poincare routines of both
 * variants compute it: sample i is a crossing when p1 > 0 there and q1
 * changes sign strictly between samples i - 1 and i, and each crossing
 * contributes the point (q2, p2) interpolated linearly at q1 = 0.
 */
module Section {
  import opened Numerics
  import opened HenonHeiles

  /** A point of the section plane (q2, p2). */
  datatype Point = Point(q2: real, p2: real)

  /** Between samples i - 1 and i the orbit crosses q1 = 0 while p1 > 0 at sample i. */
  predicate IsCrossing(Y: seq<State>, i: int)
    requires 1 <= i < |Y|
  {
    Y[i].p1 > 0.0 && Y[i].q1 * Y[i - 1].q1 < 0.0
  }

  /** The number of crossings among samples 1 .. k - 1: what the counting pass leaves in n. */
  function CrossingCount(Y: seq<State>, k: int): (c: nat)
    requires 0 <= k <= |Y|
    ensures c <= k
    decreases k
  {
    if k <= 1 then 0 else CrossingCount(Y, k - 1) + (if IsCrossing(Y, k - 1) then 1 else 0)
  }

  /** lam = q1[i - 1] / (q1[i - 1] - q1[i]): where between a and b the line q1 = 0 is met. */
  function Weight(a: State, b: State): real
    requires a.q1 != b.q1
  {
    a.q1 / (a.q1 - b.q1)
  }

  /** lam b + (1 - lam) a in the q2 and p2 coordinates. */
  function Interpolate(a: State, b: State): Point
    requires a.q1 != b.q1
  {
    var lam := Weight(a, b);
    Point(lam * b.q2 + (1.0 - lam) * a.q2, lam * b.p2 + (1.0 - lam) * a.p2)
  }

  /** The points of the crossings among samples 1 .. k - 1, in sample order. */
  function Points(Y: seq<State>, k: int): (P: seq<Point>)
    requires 0 <= k <= |Y|
    ensures |P| == CrossingCount(Y, k)
    decreases k
  {
    if k <= 1 then []
    else if IsCrossing(Y, k - 1) then Points(Y, k - 1) + [Interpolate(Y[k - 2], Y[k - 1])]
    else Points(Y, k - 1)
  }

  /** poincare(Y): the section points of the whole orbit. */
  function SectionPoints(Y: seq<State>): (P: seq<Point>)
    ensures |P| == CrossingCount(Y, |Y|)
  {
    Points(Y, |Y|)
  }

  /** Columns 0 .. |P| - 1 of the 2-row matrix A hold the points of P, q2 in row 0 and p2 in row 1. */
  predicate Holds(A: array2<real>, P: seq<Point>)
    reads A
  {
    A.Length0 == 2 && |P| <= A.Length1 &&
    forall j :: 0 <= j < |P| ==> A[0, j] == P[j].q2 && A[1, j] == P[j].p2
  }

  /** The sample indices i in 1 .. k - 1 that are crossings, in increasing order. */
  function CrossingIndices(Y: seq<State>, k: int): (I: seq<int>)
    requires 0 <= k <= |Y|
    ensures |I| == CrossingCount(Y, k)
    decreases k
  {
    if k <= 1 then []
    else if IsCrossing(Y, k - 1) then CrossingIndices(Y, k - 1) + [k - 1]
    else CrossingIndices(Y, k - 1)
  }

  /** Every listed index is a crossing in 1 .. k - 1. */
  lemma {:induction false} IndicesAreCrossings(Y: seq<State>, k: int)
    requires 0 <= k <= |Y|
    ensures forall j :: 0 <= j < |CrossingIndices(Y, k)| ==>
      1 <= CrossingIndices(Y, k)[j] < k && IsCrossing(Y, CrossingIndices(Y, k)[j])
    decreases k
  {
    if k > 1 {
      IndicesAreCrossings(Y, k - 1);
      var I, J := CrossingIndices(Y, k), CrossingIndices(Y, k - 1);
      assert forall j :: 0 <= j < |J| ==> 1 <= J[j] < k - 1 && IsCrossing(Y, J[j]);
      if IsCrossing(Y, k - 1) {
        assert I == J + [k - 1];
      } else {
        assert I == J;
      }
    }
  }

  /** The listed indices increase strictly: the crossings come in sample order. */
  lemma {:induction false} IndicesIncrease(Y: seq<State>, k: int)
    requires 0 <= k <= |Y|
    ensures forall j, l :: 0 <= j < l < |CrossingIndices(Y, k)| ==> CrossingIndices(Y, k)[j] < CrossingIndices(Y, k)[l]
    decreases k
  {
    if k > 1 {
      IndicesIncrease(Y, k - 1);
      IndicesAreCrossings(Y, k - 1);
      var I, J := CrossingIndices(Y, k), CrossingIndices(Y, k - 1);
      assert forall j :: 0 <= j < |J| ==> J[j] < k - 1;
      if IsCrossing(Y, k - 1) {
        assert I == J + [k - 1];
      } else {
        assert I == J;
      }
    }
  }

  /** Every crossing in 1 .. k - 1 is listed. */
  lemma {:induction false} CrossingsAreListed(Y: seq<State>, k: int)
    requires 0 <= k <= |Y|
    ensures forall i :: 1 <= i < k && IsCrossing(Y, i) ==> i in CrossingIndices(Y, k)
    decreases k
  {
    if k > 1 {
      CrossingsAreListed(Y, k - 1);
    }
  }

  /** Point j is interpolated between the samples around the j-th crossing index. */
  lemma {:induction false} PointsAtIndices(Y: seq<State>, k: int)
    requires 0 <= k <= |Y|
    ensures forall j :: 0 <= j < |CrossingIndices(Y, k)| ==>
      var i := CrossingIndices(Y, k)[j];
      1 <= i < k && Y[i - 1].q1 != Y[i].q1 && Points(Y, k)[j] == Interpolate(Y[i - 1], Y[i])
    decreases k
  {
    if k > 1 {
      PointsAtIndices(Y, k - 1);
      var I, P := CrossingIndices(Y, k), Points(Y, k);
      var J, Q := CrossingIndices(Y, k - 1), Points(Y, k - 1);
      assert forall j :: 0 <= j < |J| ==> 1 <= J[j] < k - 1 && Y[J[j] - 1].q1 != Y[J[j]].q1 && Q[j] == Interpolate(Y[J[j] - 1], Y[J[j]]);
      if IsCrossing(Y, k - 1) {
        assert I == J + [k - 1] && P == Q + [Interpolate(Y[k - 2], Y[k - 1])];
      } else {
        assert I == J && P == Q;
      }
    }
  }

  /** The count never decreases as more samples are scanned. */
  lemma {:induction false} CountMonotone(Y: seq<State>, i: int, k: int)
    requires 0 <= i <= k <= |Y|
    ensures CrossingCount(Y, i) <= CrossingCount(Y, k)
    decreases k
  {
    if i < k {
      CountMonotone(Y, i, k - 1);
    }
  }

  /** At a crossing the weight lies strictly between 0 and 1. */
  lemma CrossingWeight(a: State, b: State)
    requires b.q1 * a.q1 < 0.0
    ensures a.q1 != b.q1 && 0.0 < Weight(a, b) < 1.0
  {
    if 0.0 < a.q1 {
      SignOfProduct(a.q1, b.q1);
      assert b.q1 < 0.0;
      FractionInside(a.q1, a.q1 - b.q1);
    } else {
      SignOfProduct(-a.q1, b.q1);
      assert 0.0 < b.q1;
      FractionInside(-a.q1, b.q1 - a.q1);
      assert Weight(a, b) == -a.q1 / (b.q1 - a.q1);
    }
  }

  lemma FractionInside(x: real, y: real)
    requires 0.0 < x < y
    ensures 0.0 < x / y < 1.0
  {
    InsideFromProduct(x, y, x / y);
  }

  lemma InsideFromProduct(x: real, y: real, t: real)
    requires 0.0 < x < y && x == y * t
    ensures 0.0 < t < 1.0
  {
    if t >= 1.0 {
      MulMono(y, 1.0, t);
    }
    if t <= 0.0 {
      MulMono(y, t, 0.0);
    }
  }

  /** x lies between u and v, in either order. */
  predicate Between(x: real, u: real, v: real) {
    (u <= x <= v) || (v <= x <= u)
  }

  lemma ConvexBetween(lam: real, u: real, v: real)
    requires 0.0 < lam < 1.0
    ensures Between(lam * v + (1.0 - lam) * u, u, v)
  {
    var pu, pv := lam * u, lam * v;
    Complement(lam, u);
    if u <= v {
      MulMono(lam, u, v);
      ComplementMono(lam, u, v);
    } else {
      MulMono(lam, v, u);
      ComplementMono(lam, v, u);
    }
    ShiftBetween(u, v, lam * v + (1.0 - lam) * u, pu, pv, u - pu, v - pv);
  }

  lemma Complement(lam: real, a: real)
    ensures (1.0 - lam) * a == a - lam * a
  {
    var m := 1.0 - lam;
    assert m * a == a * m;
  }

  lemma ComplementMono(lam: real, a: real, b: real)
    requires lam < 1.0 && a <= b
    ensures a - lam * a <= b - lam * b
  {
    Complement(lam, a);
    Complement(lam, b);
    MulMono(1.0 - lam, a, b);
  }

  /** x = u + (pv - pu) = v - (qv - qu) with both differences of the sign of v - u lies between u and v. */
  lemma ShiftBetween(u: real, v: real, x: real, pu: real, pv: real, qu: real, qv: real)
    requires x == u + (pv - pu) && x == v - (qv - qu)
    requires u <= v ==> pu <= pv && qu <= qv
    requires v < u ==> pv <= pu && qv <= qu
    ensures Between(x, u, v)
  {
  }

  /** Each section point lies between its two samples in both q2 and p2. */
  lemma CrossingBetween(a: State, b: State)
    requires b.q1 * a.q1 < 0.0
    ensures a.q1 != b.q1
    ensures Between(Interpolate(a, b).q2, a.q2, b.q2) && Between(Interpolate(a, b).p2, a.p2, b.p2)
  {
    CrossingWeight(a, b);
    ConvexBetween(Weight(a, b), a.q2, b.q2);
    ConvexBetween(Weight(a, b), a.p2, b.p2);
  }

  /** A sample with q1 exactly 0 is no crossing, nor is the sample after it. */
  lemma ZeroIsNoCrossing(Y: seq<State>, i: int)
    requires 0 <= i < |Y| && Y[i].q1 == 0.0
    ensures 1 <= i ==> !IsCrossing(Y, i)
    ensures i + 1 < |Y| ==> !IsCrossing(Y, i + 1)
  {
  }

  /** An orbit of fewer than two samples has no section point. */
  lemma ShortOrbitNoPoints(Y: seq<State>)
    requires |Y| < 2
    ensures SectionPoints(Y) == []
  {
  }

  /** When q1 keeps one sign along the whole orbit there is no section point. */
  lemma {:induction false} OneSignNoPoints(Y: seq<State>, k: int)
    requires 0 <= k <= |Y|
    requires (forall i :: 0 <= i < |Y| ==> 0.0 <= Y[i].q1) || (forall i :: 0 <= i < |Y| ==> Y[i].q1 <= 0.0)
    ensures Points(Y, k) == []
    decreases k
  {
    if k > 1 {
      OneSignNoPoints(Y, k - 1);
      var a, b := Y[k - 2].q1, Y[k - 1].q1;
      if 0.0 <= a && 0.0 <= b {
        MulMono(b + 1.0, 0.0, a);
        assert 0.0 <= b * a by {
          if 0.0 < b {
            MulMono(b, 0.0, a);
          }
        }
      } else {
        assert a <= 0.0 && b <= 0.0;
        assert 0.0 <= b * a by {
          if b < 0.0 {
            MulMono(-b, a, 0.0);
          }
        }
      }
    }
  }

  /** The samples (5, 3, -1, 2) and then (5, 6, 1, 4) give lam = 1/2 and the one point (3, 4.5). */
  lemma SectionExample()
    ensures SectionPoints([State(5.0, 3.0, -1.0, 2.0), State(5.0, 6.0, 1.0, 4.0)]) == [Point(3.0, 4.5)]
  {
    var Y := [State(5.0, 3.0, -1.0, 2.0), State(5.0, 6.0, 1.0, 4.0)];
    assert IsCrossing(Y, 1);
    assert Weight(Y[0], Y[1]) == 0.5;
  }
}
