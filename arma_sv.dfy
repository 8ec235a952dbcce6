/**
 * armadillo/src/methods/sv.cpp: the Störmer–Verlet step henon_heiles_sv from
 * one column of Y into the next, carrying the half kick q_next, and the
 * driver stormer_verlet, which stores every step.
 */
module ArmaSv {
  import opened HenonHeiles
  import opened Schemes
  import opened ArmaUtils
  import opened Trajectory

  /**
   * henon_heiles_sv(Y.unsafe_col(src), h, Y.unsafe_col(dst), q_next):
   * column dst becomes the leapfrog step of column src with incoming
   * correction q_next, no other column changes, and q_next becomes the half
   * kick at the new positions.
   */
  method HenonHeilesSv(Y: array<State>, src: int, dst: int, h: real, qNext: Kick) returns (qNew: Kick)
    requires 0 <= src < Y.Length && 0 <= dst < Y.Length
    modifies Y
    ensures Y[..] == old(Y[..])[dst := SvStep(old(Y[src]), h, qNext)]
    ensures qNew == HalfKick(Y[dst].q1, Y[dst].q2, h)
  {
    var y := Y[src];
    var p1Half := y.p1 + qNext.c1;
    var q1Next := y.q1 + h * p1Half;
    var p2Half := y.p2 + qNext.c2;
    var q2Next := y.q2 + h * p2Half;
    qNew := Kick(0.5 * h * (-q1Next * (1.0 + 2.0 * q2Next)), 0.5 * h * (-q2Next - q1Next * q1Next + q2Next * q2Next));
    assert q1Next == Drift(y.q1, h, p1Half) && q2Next == Drift(y.q2, h, p2Half);
    assert qNew == HalfKick(q1Next, q2Next, h);
    var yNew := State(p1Half + qNew.c1, p2Half + qNew.c2, q1Next, q2Next);
    assert yNew == SvStep(y, h, qNext);
    Y[dst] := yNew;
  }

  /** The q_next the driver builds from y with step h: the half kick at y's positions. */
  method SeedKick(y: State, h: real) returns (c: Kick)
    ensures c == HalfKick(y.q1, y.q2, h)
  {
    c := Kick(0.5 * h * (-y.q1 * (1.0 + 2.0 * y.q2)), 0.5 * h * (-y.q2 - y.q1 * y.q1 + y.q2 * y.q2));
  }

  /**
   * The re-seed before the last call: q_next rebuilt from column n - 2 with
   * last_step. When last_step == h it is the kick the loop already carried.
   */
  method Reseed(y: State, h: real, lastStep: real, qNext: Kick) returns (c: Kick)
    requires qNext == HalfKick(y.q1, y.q2, h)
    ensures c == HalfKick(y.q1, y.q2, lastStep)
    ensures lastStep == h ==> c == qNext
  {
    c := SeedKick(y, lastStep);
  }

  /** Iteration i of the loop of stormer_verlet: column i + 1 becomes the leapfrog map of column i. */
  method SvPass(ghost y0: State, h: real, n: int, i: int, columns: array<State>, qNext: Kick) returns (qNew: Kick)
    requires 0 <= i < n - 1 && columns.Length == n
    requires columns[..] == Sweep(SvMap(h), y0, n, i) && qNext == HalfKick(columns[i].q1, columns[i].q2, h)
    modifies columns
    ensures columns[..] == Sweep(SvMap(h), y0, n, i + 1) && qNew == HalfKick(columns[i + 1].q1, columns[i + 1].q2, h)
  {
    ghost var before := columns[..];
    qNew := HenonHeilesSv(columns, i, i + 1, h, qNext);
    SweepNext(SvMap(h), y0, n, i, before, SvMap(h)(before[i]));
  }

  /**
   * stormer_verlet for the (n, last_step) create_H returned: column i + 1 is
   * the leapfrog map of column i for i < n - 2, and, q_next rebuilt from
   * column n - 2 with last_step, column n - 1 is the last_step leapfrog map
   * of column n - 2. The unsigned bound n - 2 needs n >= 2.
   */
  method StormerVerlet(y0: State, h: real, s: Steps) returns (Y: seq<State>)
    requires 2 <= s.n
    ensures Y == Swept(SvMap(h), SvMap(s.lastStep), y0, s.n)
  {
    var n := s.n;
    ghost var f := SvMap(h);
    var columns := StartSweep(f, y0, n);
    var qNext := SeedKick(y0, h);
    var i := 0;
    while i < n - 2
      invariant 0 <= i <= n - 2
      invariant columns[..] == Sweep(f, y0, n, i)
      invariant qNext == HalfKick(columns[i].q1, columns[i].q2, h)
    {
      qNext := SvPass(y0, h, n, i, columns, qNext);
      i := i + 1;
    }
    assert i == n - 2;
    ghost var before := columns[..];
    assert before == Sweep(f, y0, n, n - 2);
    qNext := Reseed(columns[n - 2], h, s.lastStep, qNext);
    qNext := HenonHeilesSv(columns, n - 2, n - 1, s.lastStep, qNext);
    SweptLast(f, SvMap(s.lastStep), y0, n, before, SvMap(s.lastStep)(before[n - 2]));
    Y := columns[..];
  }
}
