/**
 * armadillo/src/methods/kahans.cpp: create_A and create_b fill the 4 x 4
 * system of one Kahan step in place, kahans_iteration calls both, and the
 * driver kahans solves the system from each column of Y into the next. The
 * call to arma::solve is the parameter solve.
 */
module ArmaKahans {
  import opened HenonHeiles
  import opened Schemes
  import opened ArmaUtils
  import opened Trajectory
  import opened KahanSystem

  /**
   * create_A(y, h, A): handed a matrix that is the identity away from the
   * six entries it writes, A becomes the system matrix of the step from y.
   */
  method CreateA(y: State, h: real, A: array2<real>)
    requires Handed(A)
    modifies A
    ensures Snapshot(A) == KahanMatrix(y, h)
  {
    A[0, 2] := h * (y.q2 + 0.5);
    A[0, 3] := h * y.q1;
    A[1, 2] := h * y.q1;
    A[1, 3] := h * (0.5 - y.q2);
    A[2, 0] := -0.5 * h;
    A[3, 1] := -0.5 * h;
    FilledFrame(Snapshot(A), y, h);
  }

  /** create_b(y, h, b): b becomes the right-hand side of the step from y. */
  method CreateB(y: State, h: real, b: array<real>)
    requires b.Length == 4
    modifies b
    ensures b[..] == KahanRhs(y, h)
  {
    b[0] := y.p1 - 0.5 * h * y.q1;
    b[1] := y.p2 - 0.5 * h * y.q2;
    b[2] := y.q1 + 0.5 * h * y.p1;
    b[3] := y.q2 + 0.5 * h * y.p2;
    var r := KahanRhs(y, h);
    assert b[0] == r[0] && b[1] == r[1] && b[2] == r[2] && b[3] == r[3];
  }

  /** kahans_iteration(y, h, A, b): the whole system of the step from y_curr. */
  method KahansIteration(yCurr: State, h: real, A: array2<real>, b: array<real>)
    requires Handed(A) && b.Length == 4
    modifies A, b
    ensures Snapshot(A) == KahanMatrix(yCurr, h) && b[..] == KahanRhs(yCurr, h)
  {
    CreateA(yCurr, h, A);
    CreateB(yCurr, h, b);
  }

  /** kahans_iteration followed by the solve: the Kahan step of the column it is built from, with A still a frame matrix. */
  method KahanSolve(yCurr: State, h: real, A: array2<real>, b: array<real>, solve: Solver) returns (yNext: State)
    requires Handed(A) && b.Length == 4
    modifies A, b
    ensures Handed(A)
    ensures yNext == KahanStep(yCurr, h, solve)
  {
    KahansIteration(yCurr, h, A, b);
    yNext := solve(Snapshot(A), b[..]);
  }

  /**
   * kahans_iteration(Y.unsafe_col(src), h, A, b) followed by
   * Y.unsafe_col(dst) = solve(A, b): column dst becomes the Kahan step of
   * column src and no other column changes.
   */
  method KahanColumn(Y: array<State>, dst: int, src: int, h: real, A: array2<real>, b: array<real>, solve: Solver)
    requires 0 <= dst < Y.Length && 0 <= src < Y.Length && Handed(A) && b.Length == 4
    modifies Y, A, b
    ensures Handed(A)
    ensures Y[..] == old(Y[..])[dst := KahanStep(old(Y[src]), h, solve)]
  {
    var yNext := KahanSolve(Y[src], h, A, b, solve);
    Y[dst] := yNext;
  }

  /** Iteration i of the loop of kahans: column i + 1 becomes the solve of the system built from column i. */
  method KahanPass(ghost y0: State, h: real, n: int, i: int, columns: array<State>, A: array2<real>, b: array<real>,
                   solve: Solver)
    requires 0 <= i < n - 1 && columns.Length == n && Handed(A) && b.Length == 4
    requires columns[..] == Sweep(KahanMap(h, solve), y0, n, i)
    modifies columns, A, b
    ensures Handed(A) && columns[..] == Sweep(KahanMap(h, solve), y0, n, i + 1)
  {
    ghost var before := columns[..];
    KahanColumn(columns, i + 1, i, h, A, b, solve);
    SweepNext(KahanMap(h, solve), y0, n, i, before, KahanStep(before[i], h, solve));
  }

  /**
   * kahans for the (n, last_step) create_H returned: A starts as the
   * identity, column i + 1 is the solve of the system built from column i
   * for i < n - 2, and column n - 1 the last_step solve from column n - 2.
   * The unsigned bound n - 2 needs n >= 2.
   */
  method Kahans(y0: State, h: real, s: Steps, solve: Solver) returns (Y: seq<State>)
    requires 2 <= s.n
    ensures Y == Swept(KahanMap(h, solve), KahanMap(s.lastStep, solve), y0, s.n)
  {
    var n := s.n;
    ghost var f := KahanMap(h, solve);
    var columns := StartSweep(f, y0, n);
    var A := NewIdentity();
    var b := new real[4](_ => 0.0);
    var i := 0;
    while i < n - 2
      invariant 0 <= i <= n - 2
      invariant Handed(A)
      invariant columns[..] == Sweep(f, y0, n, i)
    {
      KahanPass(y0, h, n, i, columns, A, b, solve);
      i := i + 1;
    }
    assert i == n - 2;
    ghost var before := columns[..];
    assert before == Sweep(f, y0, n, n - 2);
    KahanColumn(columns, n - 1, n - 2, s.lastStep, A, b, solve);
    SweptLast(f, KahanMap(s.lastStep, solve), y0, n, before, KahanMap(s.lastStep, solve)(before[n - 2]));
    Y := columns[..];
  }

  /**
   * What the stored columns mean: wherever the solve was exact, column
   * i + 1 solves A(column i, h) x = b(column i, h), that is, it is Kahan's
   * step from column i, and column n - 1 is the last_step step from column
   * n - 2.
   */
  lemma KahanColumnsSolve(y0: State, h: real, s: Steps, solve: Solver, Y: seq<State>)
    requires 2 <= s.n && Y == Swept(KahanMap(h, solve), KahanMap(s.lastStep, solve), y0, s.n)
    requires forall i :: 0 <= i < s.n - 2 ==> ExactAt(solve, Y[i], h)
    requires ExactAt(solve, Y[s.n - 2], s.lastStep)
    ensures forall i :: 0 <= i < s.n - 2 ==>
      Solves(KahanMatrix(Y[i], h), Y[i + 1], KahanRhs(Y[i], h)) && KahanEquations(Y[i], Y[i + 1], h)
    ensures Solves(KahanMatrix(Y[s.n - 2], s.lastStep), Y[s.n - 1], KahanRhs(Y[s.n - 2], s.lastStep))
    ensures KahanEquations(Y[s.n - 2], Y[s.n - 1], s.lastStep)
  {
    SweptStepped(KahanMap(h, solve), KahanMap(s.lastStep, solve), y0, s.n);
    forall i | 0 <= i < s.n - 2
      ensures Solves(KahanMatrix(Y[i], h), Y[i + 1], KahanRhs(Y[i], h)) && KahanEquations(Y[i], Y[i + 1], h)
    {
      assert Y[i + 1] == KahanStep(Y[i], h, solve);
      SolutionMeaning(Y[i], Y[i + 1], h);
    }
    assert Y[s.n - 1] == KahanStep(Y[s.n - 2], s.lastStep, solve);
    SolutionMeaning(Y[s.n - 2], Y[s.n - 1], s.lastStep);
  }
}
