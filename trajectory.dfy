/**
 * What the integrator drivers return, stated once for every scheme in
 * terms of its step maps: f, the step of size h taken inside the loop, and
 * g, the final step of size last_step.
 *
 * The eigen drivers store through a cursor (Recorded); the armadillo
 * drivers write every column from the previous one (Stepped).
 */
module Trajectory {
  import opened HenonHeiles
  import opened Schemes
  import opened StepPlan
  import opened Numerics

  /**
   * An eigen driver's 4 x m result for plan p: column 0 is y0, column k of
   * the interior is the state after k * S steps, columns past the stored
   * interior keep the zero column, and column m - 1 is the last_step step
   * after all n - 2 loop steps.
   */
  predicate Recorded(Y: seq<State>, f: State -> State, g: State -> State, y0: State, p: Plan)
    requires Fits(p)
  {
    && |Y| == p.m
    && (2 <= p.m ==> Y[0] == y0)
    && (forall k :: 1 <= k < p.m - 1 && k <= Interior(p.n, p.stride) ==> Y[k] == Iterate(f, y0, k * p.stride))
    && (forall k :: Interior(p.n, p.stride) < k < p.m - 1 ==> Y[k] == Origin)
    && Y[p.m - 1] == g(Iterate(f, y0, FullSteps(p.n)))
  }

  /** The loop state of an eigen driver: y_curr, the columns of Y, and storage_index. */
  datatype Progress = Progress(y: State, columns: seq<State>, cursor: int)

  /** The counter at which `for (i = 1; i < n - 1; i++)` exits: n - 1, or 1 when the body never runs. */
  function ExitCounter(n: int): (i: int)
    ensures 1 <= i && i - 1 == FullSteps(n)
  {
    if 2 <= n then n - 1 else 1
  }

  /**
   * The loop state of an eigen driver before iteration i: Zero(4, m) with
   * y0 in column 0 before iteration 1; iteration i steps y_curr with f and,
   * when i % S == 0, stores it at the cursor and moves the cursor on.
   */
  function Run(f: State -> State, y0: State, p: Plan, i: int): (r: Progress)
    requires Fits(p) && 1 <= i <= ExitCounter(p.n)
    ensures |r.columns| == p.m
    ensures r.cursor == 1 + (i - 1) / p.stride && r.cursor <= 1 + Interior(p.n, p.stride)
    decreases i
  {
    if i == 1 then Progress(y0, [y0] + seq(p.m - 1, _ => Origin), 1)
    else
      var r := Run(f, y0, p, i - 1);
      var y := f(r.y);
      CursorAdvance(p.n, p.stride, i - 1, r.cursor);
      if (i - 1) % p.stride == 0 then Progress(y, r.columns[r.cursor := y], r.cursor + 1)
      else Progress(y, r.columns, r.cursor)
  }

  /** Y = Zero(4, m) with y0 in column 0: the loop state before iteration 1. */
  method StartRun(ghost f: State -> State, y0: State, p: Plan) returns (buffer: array<State>)
    requires Fits(p)
    ensures fresh(buffer) && Run(f, y0, p, 1) == Progress(y0, buffer[..], 1)
  {
    buffer := new State[p.m](_ => Origin);
    buffer[0] := y0;
    assert buffer[..] == [y0] + seq(p.m - 1, _ => Origin);
  }

  /** Iteration i of the loop, as Run takes it. */
  lemma RunNext(f: State -> State, y0: State, p: Plan, i: int)
    requires Fits(p) && 1 <= i < ExitCounter(p.n)
    ensures var r := Run(f, y0, p, i); var y := f(r.y);
      Run(f, y0, p, i + 1) ==
        if i % p.stride == 0 then Progress(y, r.columns[r.cursor := y], r.cursor + 1)
        else Progress(y, r.columns, r.cursor)
  {
  }

  /**
   * The storing half of an eigen loop iteration i, after y_curr has moved
   * from y to f(y): when i % S == 0 the new state goes to column
   * storage_index and the cursor moves on.
   */
  method StoreSample(ghost f: State -> State, ghost y0: State, p: Plan, i: int, ghost y: State,
                     yNext: State, buffer: array<State>, cursor: int) returns (next: int)
    requires Fits(p) && 1 <= i < ExitCounter(p.n) && yNext == f(y)
    requires Run(f, y0, p, i) == Progress(y, buffer[..], cursor)
    modifies buffer
    ensures Run(f, y0, p, i + 1) == Progress(yNext, buffer[..], next)
  {
    RunNext(f, y0, p, i);
    CursorAdvance(p.n, p.stride, i, cursor);
    if i % p.stride == 0 {
      buffer[cursor] := yNext;
      next := cursor + 1;
    } else {
      next := cursor;
    }
  }

  /**
   * Before iteration i, y_curr is the state after i - 1 steps, column 0 is
   * y0, the columns before the cursor hold the samples after k * S steps,
   * and the rest still hold the zero column.
   */
  lemma {:induction false} RunContents(f: State -> State, y0: State, p: Plan, i: int)
    requires Fits(p) && 1 <= i <= ExitCounter(p.n)
    ensures var r := Run(f, y0, p, i);
      && r.y == Iterate(f, y0, i - 1)
      && r.columns[0] == y0
      && (forall k :: 1 <= k < r.cursor ==> r.columns[k] == Iterate(f, y0, k * p.stride))
      && (forall k :: r.cursor <= k < p.m ==> r.columns[k] == Origin)
    decreases i
  {
    if i > 1 {
      RunContents(f, y0, p, i - 1);
      var r := Run(f, y0, p, i - 1);
      CursorAdvance(p.n, p.stride, i - 1, r.cursor);
    }
  }

  /** When the loop exits, writing the final g-step of y_curr into column m - 1 gives a Recorded result. */
  lemma RunRecorded(f: State -> State, g: State -> State, y0: State, p: Plan)
    requires Fits(p)
    ensures var r := Run(f, y0, p, ExitCounter(p.n));
      Recorded(r.columns[p.m - 1 := g(r.y)], f, g, y0, p)
  {
    RunContents(f, y0, p, ExitCounter(p.n));
  }

  /**
   * What an eigen driver returns: the columns when the loop exits, with the
   * last_step state g(y_curr) written into column m - 1.
   */
  function Driven(f: State -> State, g: State -> State, y0: State, p: Plan): (Y: seq<State>)
    requires Fits(p)
    ensures |Y| == p.m && Y[p.m - 1] == g(Run(f, y0, p, ExitCounter(p.n)).y)
  {
    var r := Run(f, y0, p, ExitCounter(p.n));
    r.columns[p.m - 1 := g(r.y)]
  }

  /** An eigen driver's result is Recorded. */
  lemma DrivenRecorded(f: State -> State, g: State -> State, y0: State, p: Plan)
    requires Fits(p)
    ensures Recorded(Driven(f, g, y0, p), f, g, y0, p)
  {
    RunRecorded(f, g, y0, p);
  }

  /**
   * The end of an eigen driver: once the loop has exited with y_curr = y,
   * the last_step state g(y) goes to column m - 1 and the columns are the
   * result.
   */
  method StoreLast(ghost f: State -> State, ghost g: State -> State, ghost y0: State, p: Plan, ghost y: State,
                   yLast: State, buffer: array<State>, ghost cursor: int) returns (Y: seq<State>)
    requires Fits(p) && yLast == g(y)
    requires Run(f, y0, p, ExitCounter(p.n)) == Progress(y, buffer[..], cursor)
    modifies buffer
    ensures Y == Driven(f, g, y0, p)
  {
    buffer[p.m - 1] := yLast;
    Y := buffer[..];
  }

  /**
   * An armadillo driver's 4 x n result: column 0 is y0, column i + 1 is the
   * h-step of column i for i <= n - 3, and column n - 1 is the last_step
   * step of column n - 2.
   */
  predicate Stepped(Y: seq<State>, f: State -> State, g: State -> State, y0: State, n: int) {
    && 2 <= n && |Y| == n && Y[0] == y0
    && (forall i :: 0 <= i < n - 2 ==> Y[i + 1] == f(Y[i]))
    && Y[n - 1] == g(Y[n - 2])
  }

  /**
   * The columns of an armadillo driver after i loop iterations: zeros(4, n)
   * with y0 in column 0, and iteration k writing f(column k) into column
   * k + 1.
   */
  function Sweep(f: State -> State, y0: State, n: int, i: int): (Y: seq<State>)
    requires 0 <= i < n
    ensures |Y| == n
    decreases i
  {
    if i == 0 then [y0] + seq(n - 1, _ => Origin)
    else var Z := Sweep(f, y0, n, i - 1); Z[i := f(Z[i - 1])]
  }

  /** Y = zeros(4, n) with y0 in column 0: the columns before the first iteration. */
  method StartSweep(ghost f: State -> State, y0: State, n: int) returns (columns: array<State>)
    requires 2 <= n
    ensures fresh(columns) && columns[..] == Sweep(f, y0, n, 0)
  {
    columns := new State[n](_ => Origin);
    columns[0] := y0;
    assert columns[..] == [y0] + seq(n - 1, _ => Origin);
  }

  /** Iteration i writes x = f(column i) into column i + 1. */
  lemma SweepNext(f: State -> State, y0: State, n: int, i: int, Y: seq<State>, x: State)
    requires 0 <= i < n - 1 && Y == Sweep(f, y0, n, i) && x == f(Y[i])
    ensures Y[i + 1 := x] == Sweep(f, y0, n, i + 1)
  {
  }

  /** After i iterations column 0 is y0, columns 1..i follow by f, and the rest are still zero. */
  lemma {:induction false} SweepContents(f: State -> State, y0: State, n: int, i: int)
    requires 0 <= i < n
    ensures var Y := Sweep(f, y0, n, i);
      && Y[0] == y0
      && (forall k :: 0 <= k < i ==> Y[k + 1] == f(Y[k]))
      && (forall k :: i < k < n ==> Y[k] == Origin)
    decreases i
  {
    if i > 0 {
      SweepContents(f, y0, n, i - 1);
    }
  }

  /** What an armadillo driver returns: the n - 2 loop iterations, then g of column n - 2 in column n - 1. */
  function Swept(f: State -> State, g: State -> State, y0: State, n: int): (Y: seq<State>)
    requires 2 <= n
    ensures |Y| == n && Y[n - 1] == g(Y[n - 2])
  {
    var Z := Sweep(f, y0, n, n - 2);
    Z[n - 1 := g(Z[n - 2])]
  }

  /** After the n - 2 iterations, writing x = g(column n - 2) into column n - 1 gives the result. */
  lemma SweptLast(f: State -> State, g: State -> State, y0: State, n: int, Y: seq<State>, x: State)
    requires 2 <= n && Y == Sweep(f, y0, n, n - 2) && x == g(Y[n - 2])
    ensures Y[n - 1 := x] == Swept(f, g, y0, n)
  {
  }

  /** An armadillo driver's result is Stepped: every column but the first follows from the one before. */
  lemma SweptStepped(f: State -> State, g: State -> State, y0: State, n: int)
    requires 2 <= n
    ensures Stepped(Swept(f, g, y0, n), f, g, y0, n)
  {
    SweepContents(f, y0, n, n - 2);
  }

  /** Column by column, a Stepped result is the orbit of y0 under f, closed by g. */
  lemma {:induction false} SteppedOrbit(Y: seq<State>, f: State -> State, g: State -> State, y0: State, n: int, i: int)
    requires Stepped(Y, f, g, y0, n) && 0 <= i <= n - 2
    ensures Y[i] == Iterate(f, y0, i)
    decreases i
  {
    if i > 0 {
      SteppedOrbit(Y, f, g, y0, n, i - 1);
      assert Y[i] == f(Y[i - 1]);
    }
  }

  /** Consecutive stored columns of an eigen result are S steps of f apart. */
  lemma RecordedStride(Y: seq<State>, f: State -> State, g: State -> State, y0: State, p: Plan)
    requires Fits(p) && Recorded(Y, f, g, y0, p)
    ensures forall k :: 0 <= k && k + 1 < p.m - 1 && k + 1 <= Interior(p.n, p.stride) ==>
      Y[k + 1] == Iterate(f, Y[k], p.stride)
  {
    forall k | 0 <= k && k + 1 < p.m - 1 && k + 1 <= Interior(p.n, p.stride)
      ensures Y[k + 1] == Iterate(f, Y[k], p.stride)
    {
      assert Y[k + 1] == Iterate(f, y0, (k + 1) * p.stride);
      if k == 0 {
        assert (k + 1) * p.stride == p.stride;
      } else {
        assert Y[k] == Iterate(f, y0, k * p.stride);
        assert (k + 1) * p.stride == k * p.stride + p.stride;
        IterateAdd(f, y0, k * p.stride, p.stride);
      }
    }
  }

  /** An eigen result with stride 1 and m = n is exactly the armadillo result for the same n and steps. */
  lemma StrideOneIsStepped(Y: seq<State>, f: State -> State, g: State -> State, y0: State, p: Plan)
    requires Fits(p) && p.stride == 1 && p.m == p.n && 2 <= p.n
    requires Recorded(Y, f, g, y0, p)
    ensures Stepped(Y, f, g, y0, p.n)
  {
    forall i | 0 <= i < p.n - 2
      ensures Y[i + 1] == f(Y[i])
    {
      assert Y[i + 1] == Iterate(f, y0, (i + 1) * 1);
      if i > 0 {
        assert Y[i] == Iterate(f, y0, i * 1);
      }
    }
    if p.n > 2 {
      assert Y[p.n - 2] == Iterate(f, y0, (p.n - 2) * 1);
    }
  }

  /** Started at a common fixed point of both step maps, every column of a Stepped result is y0. */
  lemma SteppedAtRest(Y: seq<State>, f: State -> State, g: State -> State, y0: State, n: int)
    requires Stepped(Y, f, g, y0, n) && f(y0) == y0 && g(y0) == y0
    ensures forall i :: 0 <= i < n ==> Y[i] == y0
  {
    forall i | 0 <= i <= n - 2
      ensures Y[i] == y0
    {
      SteppedOrbit(Y, f, g, y0, n, i);
      IterateFixed(f, y0, i);
    }
  }

  /** Started at a common fixed point, every written column of a Recorded result is y0. */
  lemma RecordedAtRest(Y: seq<State>, f: State -> State, g: State -> State, y0: State, p: Plan)
    requires Fits(p) && Recorded(Y, f, g, y0, p) && f(y0) == y0 && g(y0) == y0
    ensures forall k :: 0 <= k < p.m && (k <= Interior(p.n, p.stride) || k == p.m - 1) ==> Y[k] == y0
  {
    forall k | 1 <= k < p.m - 1 && k <= Interior(p.n, p.stride)
      ensures Y[k] == y0
    {
      IterateFixed(f, y0, k * p.stride);
    }
    IterateFixed(f, y0, FullSteps(p.n));
  }
}
