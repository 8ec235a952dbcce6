/**
 * armadillo/src/methods/sb.cpp: the stage evaluation henon_heiles_sb, the
 * step sb_iteration from one column of Y into the next, and the driver
 * shampine_bogacki, which stores every step.
 */
module ArmaSb {
  import opened HenonHeiles
  import opened Schemes
  import opened ArmaUtils
  import opened Trajectory

  /** henon_heiles_sb(y, Y_vec.unsafe_col(j)): column j becomes the vector field at y, the rest is untouched. */
  method HenonHeilesSb(y: State, yVec: array<State>, j: int)
    requires 0 <= j < yVec.Length
    modifies yVec
    ensures yVec[..] == old(yVec[..])[j := VectorField(y)]
  {
    var y2 := y.q1;
    var y3 := y.q2;
    yVec[j] := State(-y2 * (1.0 + 2.0 * y3), -(y3 + y2 * y2 - y3 * y3), y.p1, y.p2);
    assert yVec[j] == VectorField(y);
  }

  /**
   * sb_iteration(Y.unsafe_col(dst), Y.col(src), Y_vec, h): the stages of
   * column src land in Y_vec, and column dst becomes the Bogacki–Shampine
   * step of column src; no other column of Y changes.
   */
  method SbIteration(Y: array<State>, dst: int, src: int, yVec: array<State>, h: real)
    requires 0 <= dst < Y.Length && 0 <= src < Y.Length && yVec.Length == 3 && Y != yVec
    modifies Y, yVec
    ensures yVec[..] == SbStages(old(Y[src]), h)
    ensures Y[..] == old(Y[..])[dst := SbStep(old(Y[src]), h)]
  {
    var y := Y[src];
    HenonHeilesSb(y, yVec, 0);
    HenonHeilesSb(Axpy(y, 0.5 * h, yVec[0]), yVec, 1);
    HenonHeilesSb(Axpy(y, 0.75 * h, yVec[1]), yVec, 2);
    Y[dst] := Axpy(y, h / 9.0, Add(Add(Scale(2.0, yVec[0]), Scale(3.0, yVec[1])), Scale(4.0, yVec[2])));
  }

  /** Iteration i of the loop of shampine_bogacki: column i + 1 becomes the step of column i. */
  method SbPass(ghost y0: State, h: real, n: int, i: int, columns: array<State>, yVec: array<State>)
    requires 0 <= i < n - 1 && columns.Length == n && yVec.Length == 3 && columns != yVec
    requires columns[..] == Sweep(SbMap(h), y0, n, i)
    modifies columns, yVec
    ensures columns[..] == Sweep(SbMap(h), y0, n, i + 1)
  {
    ghost var before := columns[..];
    SbIteration(columns, i + 1, i, yVec, h);
    SweepNext(SbMap(h), y0, n, i, before, SbStep(before[i], h));
  }

  /**
   * shampine_bogacki for the (n, last_step) create_H returned: column 0 is
   * y0, column i + 1 is the h-step of column i for i < n - 2, and column
   * n - 1 is the last_step step of column n - 2. The unsigned bound n - 2
   * needs n >= 2.
   */
  method ShampineBogacki(y0: State, h: real, s: Steps) returns (Y: seq<State>)
    requires 2 <= s.n
    ensures Y == Swept(SbMap(h), SbMap(s.lastStep), y0, s.n)
  {
    var n := s.n;
    ghost var f := SbMap(h);
    var columns := StartSweep(f, y0, n);
    var yVec := new State[3](_ => Origin);
    var i := 0;
    while i < n - 2
      invariant 0 <= i <= n - 2
      invariant columns[..] == Sweep(f, y0, n, i)
    {
      SbPass(y0, h, n, i, columns, yVec);
      i := i + 1;
    }
    assert i == n - 2;
    ghost var before := columns[..];
    assert before == Sweep(f, y0, n, n - 2);
    SbIteration(columns, n - 1, n - 2, yVec, s.lastStep);
    SweptLast(f, SbMap(s.lastStep), y0, n, before, SbMap(s.lastStep)(before[n - 2]));
    Y := columns[..];
  }
}
