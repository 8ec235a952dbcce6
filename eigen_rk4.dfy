/**
 * eigen/src/methods/rk4.cpp: the stage evaluation henon_heiles_rk, one
 * Runge–Kutta step kutta_iteration over a 4 x 4 scratch matrix, and the
 * storing driver kuttas_method.
 */
module EigenRk4 {
  import opened HenonHeiles
  import opened Schemes
  import opened StepPlan
  import opened Trajectory

  /** henon_heiles_rk(y, Y_vec.col(j)): column j becomes the vector field at y, the rest is untouched. */
  method HenonHeilesRk(y: State, yVec: array<State>, j: int)
    requires 0 <= j < yVec.Length
    modifies yVec
    ensures yVec[..] == old(yVec[..])[j := VectorField(y)]
  {
    var y2 := y.q1;
    var y3 := y.q2;
    yVec[j] := State(-y2 * (1.0 + 2.0 * y3), -(y3 + y2 * y2 - y3 * y3), y.p1, y.p2);
    assert yVec[j] == VectorField(y);
  }

  /**
   * kutta_iteration(y_curr, Y_vec, h): the four stages land in the columns
   * of Y_vec, each written before it is read, and y_curr becomes the
   * Runge–Kutta step of its old value whatever Y_vec held before.
   */
  method KuttaIteration(yCurr: State, yVec: array<State>, h: real) returns (yNext: State)
    requires yVec.Length == 4
    modifies yVec
    ensures yVec[..] == Rk4Stages(yCurr, h)
    ensures yNext == Rk4Step(yCurr, h)
  {
    HenonHeilesRk(yCurr, yVec, 0);
    HenonHeilesRk(Axpy(yCurr, 0.5 * h, yVec[0]), yVec, 1);
    HenonHeilesRk(Axpy(yCurr, 0.5 * h, yVec[1]), yVec, 2);
    HenonHeilesRk(Axpy(yCurr, h, yVec[2]), yVec, 3);
    yNext := Axpy(yCurr, h / 6.0, Add(Add(Add(yVec[0], Scale(2.0, yVec[1])), Scale(2.0, yVec[2])), yVec[3]));
  }

  /** Iteration i of the loop of kuttas_method: step y_curr, then store it when i % S == 0. */
  method KuttaPass(ghost y0: State, h: real, p: Plan, i: int, yCurr: State, yVec: array<State>,
                   buffer: array<State>, cursor: int) returns (yNext: State, next: int)
    requires Fits(p) && 1 <= i < ExitCounter(p.n) && yVec.Length == 4 && yVec != buffer
    requires Run(Rk4Map(h), y0, p, i) == Progress(yCurr, buffer[..], cursor)
    modifies yVec, buffer
    ensures Run(Rk4Map(h), y0, p, i + 1) == Progress(yNext, buffer[..], next)
  {
    ghost var columns := buffer[..];
    yNext := KuttaIteration(yCurr, yVec, h);
    assert buffer[..] == columns;
    next := StoreSample(Rk4Map(h), y0, p, i, yCurr, yNext, buffer, cursor);
  }

  /**
   * kuttas_method for the plan create_H returned: Y = Zero(4, m), column 0
   * is y0, iteration i of the loop stores y_curr in the next column when
   * i % S == 0, and the last_step result goes to column m - 1.
   */
  method KuttasMethod(y0: State, h: real, p: Plan) returns (Y: seq<State>)
    requires Fits(p)
    ensures Y == Driven(Rk4Map(h), Rk4Map(p.lastStep), y0, p)
  {
    ghost var f := Rk4Map(h);
    var buffer := StartRun(f, y0, p);
    var yVec := new State[4](_ => Origin);
    var yCurr := y0;
    var storageIndex := 1;
    var i := 1;
    while i < p.n - 1
      invariant 1 <= i <= ExitCounter(p.n)
      invariant Run(f, y0, p, i) == Progress(yCurr, buffer[..], storageIndex)
    {
      yCurr, storageIndex := KuttaPass(y0, h, p, i, yCurr, yVec, buffer, storageIndex);
      i := i + 1;
    }
    assert i == ExitCounter(p.n);
    ghost var columns := buffer[..];
    var yLast := KuttaIteration(yCurr, yVec, p.lastStep);
    assert buffer[..] == columns;
    Y := StoreLast(f, Rk4Map(p.lastStep), y0, p, yCurr, yLast, buffer, storageIndex);
  }
}
