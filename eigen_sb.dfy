/**
 * eigen/src/methods/sb.cpp: the stage evaluation henon_heiles_sb, one
 * Bogacki–Shampine step sb_iteration over a 4 x 3 scratch matrix, and the
 * storing driver shampine_bogacki.
 */
module EigenSb {
  import opened HenonHeiles
  import opened Schemes
  import opened StepPlan
  import opened Trajectory

  /** henon_heiles_sb(y, Y_vec.col(j)): column j becomes the vector field at y, the rest is untouched. */
  method HenonHeilesSb(y: State, yVec: array<State>, j: int)
    requires 0 <= j < yVec.Length
    modifies yVec
    ensures yVec[..] == old(yVec[..])[j := VectorField(y)]
  {
    var y2 := y.q1;
    var y3 := y.q2;
    yVec[j] := State(-y2 * (1.0 + 2.0 * y3), -(y3 + y2 * y2 - y3 * y3), y.p1, y.p2);
    assert yVec[j] == VectorField(y);
  }

  /**
   * sb_iteration(y_curr, Y_vec, h): the three stages land in the columns of
   * Y_vec, and y_curr becomes the Bogacki–Shampine step of its old value.
   */
  method SbIteration(yCurr: State, yVec: array<State>, h: real) returns (yNext: State)
    requires yVec.Length == 3
    modifies yVec
    ensures yVec[..] == SbStages(yCurr, h)
    ensures yNext == SbStep(yCurr, h)
  {
    HenonHeilesSb(yCurr, yVec, 0);
    HenonHeilesSb(Axpy(yCurr, 0.5 * h, yVec[0]), yVec, 1);
    HenonHeilesSb(Axpy(yCurr, 0.75 * h, yVec[1]), yVec, 2);
    yNext := Axpy(yCurr, h / 9.0, Add(Add(Scale(2.0, yVec[0]), Scale(3.0, yVec[1])), Scale(4.0, yVec[2])));
  }

  /** Iteration i of the loop of shampine_bogacki: step y_curr, then store it when i % S == 0. */
  method SbPass(ghost y0: State, h: real, p: Plan, i: int, yCurr: State, yVec: array<State>,
                buffer: array<State>, cursor: int) returns (yNext: State, next: int)
    requires Fits(p) && 1 <= i < ExitCounter(p.n) && yVec.Length == 3 && yVec != buffer
    requires Run(SbMap(h), y0, p, i) == Progress(yCurr, buffer[..], cursor)
    modifies yVec, buffer
    ensures Run(SbMap(h), y0, p, i + 1) == Progress(yNext, buffer[..], next)
  {
    ghost var columns := buffer[..];
    yNext := SbIteration(yCurr, yVec, h);
    assert buffer[..] == columns;
    next := StoreSample(SbMap(h), y0, p, i, yCurr, yNext, buffer, cursor);
  }

  /**
   * shampine_bogacki for the plan create_H returned: column 0 is y0,
   * iteration i stores y_curr in the next column when i % S == 0, and the
   * last_step result goes to column m - 1.
   */
  method ShampineBogacki(y0: State, h: real, p: Plan) returns (Y: seq<State>)
    requires Fits(p)
    ensures Y == Driven(SbMap(h), SbMap(p.lastStep), y0, p)
  {
    ghost var f := SbMap(h);
    var buffer := StartRun(f, y0, p);
    var yVec := new State[3](_ => Origin);
    var yCurr := y0;
    var storageIndex := 1;
    var i := 1;
    while i < p.n - 1
      invariant 1 <= i <= ExitCounter(p.n)
      invariant Run(f, y0, p, i) == Progress(yCurr, buffer[..], storageIndex)
    {
      yCurr, storageIndex := SbPass(y0, h, p, i, yCurr, yVec, buffer, storageIndex);
      i := i + 1;
    }
    assert i == ExitCounter(p.n);
    ghost var columns := buffer[..];
    var yLast := SbIteration(yCurr, yVec, p.lastStep);
    assert buffer[..] == columns;
    Y := StoreLast(f, SbMap(p.lastStep), y0, p, yCurr, yLast, buffer, storageIndex);
  }
}
