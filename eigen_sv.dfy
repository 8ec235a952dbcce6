/**
 * eigen/src/methods/sv.cpp: the Störmer–Verlet step henon_heiles_sv, which
 * updates y_curr and the carried half kick q_next in place, and the storing
 * driver stormer_verlet.
 */
module EigenSv {
  import opened HenonHeiles
  import opened Schemes
  import opened StepPlan
  import opened Trajectory

  /**
   * henon_heiles_sv(y_curr, h, q_next): y_curr becomes the leapfrog step
   * with incoming correction q_next, and q_next becomes the half kick at the
   * new positions, ready for the next call.
   */
  method HenonHeilesSv(yCurr: State, h: real, qNext: Kick) returns (yNew: State, qNew: Kick)
    ensures yNew == SvStep(yCurr, h, qNext)
    ensures qNew == HalfKick(yNew.q1, yNew.q2, h)
  {
    var p1Half := yCurr.p1 + qNext.c1;
    var q1Next := yCurr.q1 + h * p1Half;
    var p2Half := yCurr.p2 + qNext.c2;
    var q2Next := yCurr.q2 + h * p2Half;
    qNew := Kick(0.5 * h * (-q1Next * (1.0 + 2.0 * q2Next)), 0.5 * h * (-q2Next - q1Next * q1Next + q2Next * q2Next));
    assert q1Next == Drift(yCurr.q1, h, p1Half) && q2Next == Drift(yCurr.q2, h, p2Half);
    assert qNew == HalfKick(q1Next, q2Next, h);
    yNew := State(p1Half + qNew.c1, p2Half + qNew.c2, q1Next, q2Next);
  }

  /** The q_next the driver builds from y with step h: the half kick at y's positions. */
  method SeedKick(y: State, h: real) returns (c: Kick)
    ensures c == HalfKick(y.q1, y.q2, h)
  {
    c := Kick(0.5 * h * (-y.q1 * (1.0 + 2.0 * y.q2)), 0.5 * h * (-y.q2 - y.q1 * y.q1 + y.q2 * y.q2));
  }

  /**
   * The re-seed before the last call: q_next rebuilt from y_curr with
   * last_step. When last_step == h it is the kick the loop already carried.
   */
  method Reseed(y: State, h: real, lastStep: real, qNext: Kick) returns (c: Kick)
    requires qNext == HalfKick(y.q1, y.q2, h)
    ensures c == HalfKick(y.q1, y.q2, lastStep)
    ensures lastStep == h ==> c == qNext
  {
    c := SeedKick(y, lastStep);
  }

  /** Iteration i of the loop of stormer_verlet: step y_curr with q_next, then store it when i % S == 0. */
  method SvPass(ghost y0: State, h: real, p: Plan, i: int, yCurr: State, qNext: Kick,
                buffer: array<State>, cursor: int) returns (yNext: State, qNew: Kick, next: int)
    requires Fits(p) && 1 <= i < ExitCounter(p.n) && qNext == HalfKick(yCurr.q1, yCurr.q2, h)
    requires Run(SvMap(h), y0, p, i) == Progress(yCurr, buffer[..], cursor)
    modifies buffer
    ensures qNew == HalfKick(yNext.q1, yNext.q2, h)
    ensures Run(SvMap(h), y0, p, i + 1) == Progress(yNext, buffer[..], next)
  {
    yNext, qNew := HenonHeilesSv(yCurr, h, qNext);
    next := StoreSample(SvMap(h), y0, p, i, yCurr, yNext, buffer, cursor);
  }

  /**
   * stormer_verlet for the plan create_H returned: q_next starts as the half
   * kick at y0, so every call is the leapfrog map of y_curr; stored columns
   * follow i % S == 0, and before the last call q_next is rebuilt with
   * last_step, so column m - 1 is the last_step leapfrog map.
   */
  method StormerVerlet(y0: State, h: real, p: Plan) returns (Y: seq<State>)
    requires Fits(p)
    ensures Y == Driven(SvMap(h), SvMap(p.lastStep), y0, p)
  {
    ghost var f := SvMap(h);
    var buffer := StartRun(f, y0, p);
    var qNext := SeedKick(y0, h);
    var yCurr := y0;
    var storageIndex := 1;
    var i := 1;
    while i < p.n - 1
      invariant 1 <= i <= ExitCounter(p.n)
      invariant qNext == HalfKick(yCurr.q1, yCurr.q2, h)
      invariant Run(f, y0, p, i) == Progress(yCurr, buffer[..], storageIndex)
    {
      yCurr, qNext, storageIndex := SvPass(y0, h, p, i, yCurr, qNext, buffer, storageIndex);
      i := i + 1;
    }
    assert i == ExitCounter(p.n);
    qNext := Reseed(yCurr, h, p.lastStep, qNext);
    var yLast;
    yLast, qNext := HenonHeilesSv(yCurr, p.lastStep, qNext);
    Y := StoreLast(f, SvMap(p.lastStep), y0, p, yCurr, yLast, buffer, storageIndex);
  }
}
