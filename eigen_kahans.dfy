/**
 * eigen/src/methods/kahans.cpp: create_A and create_b fill the 4 x 4 system
 * of one Kahan step in place, kahans_iteration calls both, and the storing
 * driver kahans solves the system once per step. The LU solve is the
 * parameter solve.
 */
module EigenKahans {
  import opened HenonHeiles
  import opened Schemes
  import opened StepPlan
  import opened Trajectory
  import opened KahanSystem

  /**
   * create_A(y, h, A): handed a matrix that is the identity away from the
   * six entries it writes, A becomes the system matrix of the step from y.
   */
  method CreateA(y: State, h: real, A: array2<real>)
    requires Handed(A)
    modifies A
    ensures Snapshot(A) == KahanMatrix(y, h)
  {
    A[0, 2] := h * (y.q2 + 0.5);
    A[0, 3] := h * y.q1;
    A[1, 2] := h * y.q1;
    A[1, 3] := h * (0.5 - y.q2);
    A[2, 0] := -0.5 * h;
    A[3, 1] := -0.5 * h;
    FilledFrame(Snapshot(A), y, h);
  }

  /** create_b(y, h, b): b becomes the right-hand side of the step from y. */
  method CreateB(y: State, h: real, b: array<real>)
    requires b.Length == 4
    modifies b
    ensures b[..] == KahanRhs(y, h)
  {
    b[0] := y.p1 - 0.5 * h * y.q1;
    b[1] := y.p2 - 0.5 * h * y.q2;
    b[2] := y.q1 + 0.5 * h * y.p1;
    b[3] := y.q2 + 0.5 * h * y.p2;
    var r := KahanRhs(y, h);
    assert b[0] == r[0] && b[1] == r[1] && b[2] == r[2] && b[3] == r[3];
  }

  /** kahans_iteration(y_curr, h, A, b): the whole system of the step from y_curr. */
  method KahansIteration(yCurr: State, h: real, A: array2<real>, b: array<real>)
    requires Handed(A) && b.Length == 4
    modifies A, b
    ensures Snapshot(A) == KahanMatrix(yCurr, h) && b[..] == KahanRhs(yCurr, h)
  {
    CreateA(yCurr, h, A);
    CreateB(yCurr, h, b);
  }

  /** kahans_iteration followed by the solve: the Kahan step of y_curr, with A still a frame matrix. */
  method KahanSolve(yCurr: State, h: real, A: array2<real>, b: array<real>, solve: Solver) returns (yNext: State)
    requires Handed(A) && b.Length == 4
    modifies A, b
    ensures Handed(A)
    ensures yNext == KahanStep(yCurr, h, solve)
  {
    KahansIteration(yCurr, h, A, b);
    yNext := solve(Snapshot(A), b[..]);
  }

  /** Iteration i of the loop of kahans: build and solve the system at y_curr, then store when i % S == 0. */
  method KahanPass(ghost y0: State, h: real, p: Plan, i: int, yCurr: State, A: array2<real>, b: array<real>,
                   solve: Solver, buffer: array<State>, cursor: int) returns (yNext: State, next: int)
    requires Fits(p) && 1 <= i < ExitCounter(p.n) && Handed(A) && b.Length == 4
    requires Run(KahanMap(h, solve), y0, p, i) == Progress(yCurr, buffer[..], cursor)
    modifies A, b, buffer
    ensures Handed(A)
    ensures Run(KahanMap(h, solve), y0, p, i + 1) == Progress(yNext, buffer[..], next)
  {
    yNext := KahanSolve(yCurr, h, A, b, solve);
    next := StoreSample(KahanMap(h, solve), y0, p, i, yCurr, yNext, buffer, cursor);
  }

  /**
   * kahans for the plan create_H returned: A starts as the identity and
   * keeps its ten untouched entries, so each solve is the Kahan step of
   * y_curr; stored columns follow i % S == 0 and column m - 1 is the
   * last_step solve.
   */
  method Kahans(y0: State, h: real, p: Plan, solve: Solver) returns (Y: seq<State>)
    requires Fits(p)
    ensures Y == Driven(KahanMap(h, solve), KahanMap(p.lastStep, solve), y0, p)
  {
    ghost var f := KahanMap(h, solve);
    var buffer := StartRun(f, y0, p);
    var A := NewIdentity();
    var b := new real[4](_ => 0.0);
    var yCurr := y0;
    var storageIndex := 1;
    var i := 1;
    while i < p.n - 1
      invariant 1 <= i <= ExitCounter(p.n)
      invariant Handed(A)
      invariant Run(f, y0, p, i) == Progress(yCurr, buffer[..], storageIndex)
    {
      yCurr, storageIndex := KahanPass(y0, h, p, i, yCurr, A, b, solve, buffer, storageIndex);
      i := i + 1;
    }
    assert i == ExitCounter(p.n);
    var yLast := KahanSolve(yCurr, p.lastStep, A, b, solve);
    Y := StoreLast(f, KahanMap(p.lastStep, solve), y0, p, yCurr, yLast, buffer, storageIndex);
  }

  /**
   * What the stored columns mean: wherever the solve was exact, each step
   * of the loop is Kahan's step from the state before it, stored column k
   * is the state after k S such steps, and column m - 1 is the last_step
   * step from the final y_curr. With S = 1 and m = n this says column
   * k + 1 solves A(column k, h) x = b(column k, h).
   */
  lemma KahanColumnsSolve(y0: State, h: real, p: Plan, solve: Solver, Y: seq<State>)
    requires Fits(p) && Y == Driven(KahanMap(h, solve), KahanMap(p.lastStep, solve), y0, p)
    requires forall j :: 0 <= j < FullSteps(p.n) ==> ExactAt(solve, Iterate(KahanMap(h, solve), y0, j), h)
    requires ExactAt(solve, Iterate(KahanMap(h, solve), y0, FullSteps(p.n)), p.lastStep)
    ensures var f := KahanMap(h, solve);
      forall j :: 0 <= j < FullSteps(p.n) ==> KahanEquations(Iterate(f, y0, j), Iterate(f, y0, j + 1), h)
    ensures var f := KahanMap(h, solve);
      forall k :: 1 <= k < p.m - 1 && k <= Interior(p.n, p.stride) ==> Y[k] == Iterate(f, y0, k * p.stride)
    ensures KahanEquations(Iterate(KahanMap(h, solve), y0, FullSteps(p.n)), Y[p.m - 1], p.lastStep)
    ensures p.stride == 1 && p.m == p.n && 2 <= p.n ==>
      forall k :: 0 <= k < p.n - 2 ==> KahanEquations(Y[k], Y[k + 1], h)
  {
    var f, g := KahanMap(h, solve), KahanMap(p.lastStep, solve);
    DrivenRecorded(f, g, y0, p);
    forall j | 0 <= j < FullSteps(p.n)
      ensures KahanEquations(Iterate(f, y0, j), Iterate(f, y0, j + 1), h)
    {
      var y := Iterate(f, y0, j);
      assert Iterate(f, y0, j + 1) == KahanStep(y, h, solve);
      SolutionMeaning(y, KahanStep(y, h, solve), h);
    }
    var y := Iterate(f, y0, FullSteps(p.n));
    assert Y[p.m - 1] == KahanStep(y, p.lastStep, solve);
    SolutionMeaning(y, Y[p.m - 1], p.lastStep);
    if p.stride == 1 && p.m == p.n && 2 <= p.n {
      StrideOneIsStepped(Y, f, g, y0, p);
      forall k | 0 <= k < p.n - 2
        ensures KahanEquations(Y[k], Y[k + 1], h)
      {
        SteppedOrbit(Y, f, g, y0, p.n, k);
        SteppedOrbit(Y, f, g, y0, p.n, k + 1);
      }
    }
  }
}
