/**
 * What create_H hands an integrator driver, and what a driver does with
 * it. A driver takes column 0 from y0, runs the loop
 * `for (i = 1; i < n - 1; i++)` of h-steps, stores the state after
 * iteration i in the next column whenever i % S == 0, and finally takes one
 * step of lastStep into column m - 1.
 *
 * Planned is the planner both create_H functions evidently intend: its
 * schedule ends at t_end (up to the 1e-10 tolerance) and its column count
 * is exactly the number of columns the loop fills.
 */
module StepPlan {
  import opened Numerics

  /** The tuple (n, m, SKIP_STORAGE, last_step) returned by create_H. */
  datatype Plan = Plan(n: int, m: int, stride: int, lastStep: real)

  /** The number of h-steps taken by `for (i = 1; i < n - 1; i++)` (signed int n). */
  function FullSteps(n: int): nat {
    if n >= 2 then n - 2 else 0
  }

  /** The number of iterations i in 1..n-2 with i % s == 0: the interior columns a driver stores. */
  function Interior(n: int, s: int): nat
    requires 1 <= s
  {
    FullSteps(n) / s
  }

  /** Column 0, the stored interior iterations, and the final column. */
  function StoredColumns(n: int, s: int): nat
    requires 1 <= s
  {
    2 + Interior(n, s)
  }

  /**
   * The storage cursor of a driver's loop: before iteration i it is
   * 1 + (i - 1) / S; an iteration with i % S == 0 is the cursor's own
   * sample, still inside the interior, and moves the cursor on.
   */
  lemma CursorAdvance(n: int, s: int, i: int, c: int)
    requires 1 <= s && 1 <= i < n - 1 && c == 1 + (i - 1) / s
    ensures i % s == 0 ==> c <= Interior(n, s) && c * s == i
    ensures (if i % s == 0 then c + 1 else c) == 1 + i / s
  {
    DivStep(i, s);
    if i % s == 0 {
      DivMonotone(i, n - 2, s);
    }
  }

  /** Every write of a driver lands inside its m columns: column 0, the interior cursor, column m - 1. */
  predicate Fits(p: Plan) {
    1 <= p.stride && 1 + Interior(p.n, p.stride) <= p.m
  }

  /** The time a schedule of n iterations ends at: t0, the h-steps of the loop, then lastStep. */
  function EndTime(t0: real, h: real, n: int, lastStep: real): real {
    t0 + FullSteps(n) as real * h + lastStep
  }

  /** The end time in terms of the number j of h-steps. */
  lemma EndTimeAfter(t0: real, h: real, n: int, lastStep: real, j: int)
    requires FullSteps(n) == j
    ensures EndTime(t0, h, n, lastStep) == t0 + j as real * h + lastStep
  {
  }

  /** The time after j steps of h from start. */
  function SampleTime(start: real, j: int, h: real): real {
    start + j as real * h
  }

  lemma NextSampleTime(start: real, j: int, h: real)
    ensures SampleTime(start, j, h) + h == SampleTime(start, j + 1, h)
  {
    assert (j + 1) as real * h == j as real * h + h;
  }

  /**
   * The intended planner: as many whole steps of h as fit in t_end - t_0,
   * then one step of the rest; a rest below 1e-10 is absorbed in the last
   * whole step, as the tolerance in create_H means to do.
   */
  function Planned(t0: real, tEnd: real, h: real, s: int): (p: Plan)
    requires 0.0 < h && 1 <= s && t0 <= tEnd
    ensures Fits(p) && 2 <= p.n && p.stride == s
    ensures p.m == StoredColumns(p.n, s)
    ensures s == 1 ==> p.m == p.n
    ensures 0.0 <= p.lastStep <= h
  {
    var d := tEnd - t0;
    var whole := (d / h).Floor;
    var rest := d - h * whole as real;
    WholeSteps(d, h);
    if Eps <= rest || whole == 0 then
      Plan(whole + 2, StoredColumns(whole + 2, s), s, rest)
    else
      Plan(whole + 1, StoredColumns(whole + 1, s), s, h)
  }

  /** floor(d / h) whole steps fit in d, leaving a rest in [0, h). */
  lemma WholeSteps(d: real, h: real)
    requires 0.0 < h && 0.0 <= d
    ensures var whole := (d / h).Floor;
      0 <= whole && 0.0 <= d - h * whole as real < h
  {
    var t := d / h;
    var whole := t.Floor;
    var f := t - whole as real;
    assert d == h * t;
    assert d - h * whole as real == h * f;
    FractionOfStep(h, f);
    SignOfProduct(h, t);
    assert 0.0 <= t;
    assert 0 <= whole;
    assert 0.0 <= h * f < h;
    assert 0.0 <= d - h * whole as real < h;
  }

  lemma FractionOfStep(h: real, f: real)
    requires 0.0 < h && 0.0 <= f < 1.0
    ensures 0.0 <= h * f < h
  {
    assert h * (1.0 - f) > 0.0;
  }

  /** The intended schedule ends at t_end, or short of it by less than 1e-10. */
  lemma PlannedReachesEnd(t0: real, tEnd: real, h: real, s: int)
    requires 0.0 < h && 1 <= s && t0 <= tEnd
    ensures var p := Planned(t0, tEnd, h, s); var e := EndTime(t0, h, p.n, p.lastStep);
      e <= tEnd < e + Eps
  {
    WholeSteps(tEnd - t0, h);
  }
}
